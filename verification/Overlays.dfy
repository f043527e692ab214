/** Decoding into a message that already holds values: what the fields of the input
    replace, what they are merged into, and what they leave alone. Last One Wins for
    scalars and strings, merging for submessages, appending for repeated fields. */
module Overlays {
  import opened Common
  import opened Varint
  import opened WireFields
  import opened Message
  import opened SortedKeys
  import opened TenantMessages
  import opened NewerMessages
  import opened QuotaMessages
  import opened QuotaLists
  import Generated

  // ------------------------------------------------------------------ field tables

  /** Which field numbers each message knows, and whether as a varint or as bytes. */
  ghost predicate Table<M>(s: Schema<M>, scalars: set<int>, payloads: set<int>) {
    forall n: int {:trigger s(n)} ::
      (s(n).Scalar? <==> n in scalars) && (s(n).Delimited? <==> n in payloads)
  }

  lemma TenantTables(c: Codecs)
    ensures Table(CapacitySchema(), {1, 2, 3}, {})
    ensures Table(SuspensionSchema(), {}, {1, 2})
    ensures Table(StatusSchema(), {1}, {})
    ensures Table(QuotaSchema(c.quantity), {}, {1})
    ensures Table(SpecSchema(c), {1}, {2, 3, 4, 5})
    ensures Table(TenantSchema(c), {}, {1, 2, 3})
  {
    var s, t := SpecSchema(c), TenantSchema(c);
    assert SuspensionSchema()(1) == Payload(SetMode) && SuspensionSchema()(2) == Payload(SetReason);
    assert s(2) == Payload((m: Spec, p: seq<byte>) => MergeQuota(c, m, p));
    assert s(3) == Payload((m: Spec, p: seq<byte>) => MergeSuspension(m, p));
    assert s(4) == Payload((m: Spec, p: seq<byte>) => MergeValidity(c, m, p));
    assert s(5) == Payload((m: Spec, p: seq<byte>) => MergeCapacity(m, p));
    assert t(1) == Payload((m: Tenant, p: seq<byte>) => MergeMeta(c, m, p));
    assert t(2) == Payload((m: Tenant, p: seq<byte>) => MergeSpec(c, m, p));
    assert t(3) == Payload((m: Tenant, p: seq<byte>) => MergeStatus(m, p));
  }

  lemma QuotaTables(q: QuotaCodecs, o: ObjectCodecs)
    ensures Table(ClusterQuotaSchema(q), {}, {1, 2, 3})
    ensures Table(QuotaStatusSchema(o), {}, {1})
    ensures Table(ObjectSchema(o), {}, {1, 2, 3})
    ensures Table(ListSchema(o), {}, {1, 2})
  {
    var s, t, l := ClusterQuotaSchema(q), ObjectSchema(o), ListSchema(o);
    assert s(1) == Payload((m: ClusterQuota, p: seq<byte>) => MergeResourceQuotaSpec(q, m, p));
    assert s(2) == Payload((m: ClusterQuota, p: seq<byte>) => MergeSelector(q, m, p));
    assert s(3) == Payload(AppendNamespace);
    assert t(1) == Payload((m: QuotaObject, p: seq<byte>) => MergeObjectMeta(o, m, p));
    assert t(2) == Payload((m: QuotaObject, p: seq<byte>) => MergeObjectSpec(o, m, p));
    assert t(3) == Payload((m: QuotaObject, p: seq<byte>) => MergeObjectStatus(o, m, p));
    assert l(1) == Payload((m: QuotaList, p: seq<byte>) => MergeListMeta(o, m, p));
    assert l(2) == Payload((m: QuotaList, p: seq<byte>) => AppendItem(o, m, p));
    assert QuotaStatusSchema(o)(1) == Payload((m: QuotaStatus, p: seq<byte>) => MergeQuotaStatus(o, m, p));
  }

  // --------------------------------------------------------------------- the bytes

  /** A one-byte tag, a length and the payload. */
  function Tagged(tag: byte, p: seq<byte>): seq<byte> {
    [tag] + (EncodeVarint(|p|) + p)
  }

  lemma DelimitedIsTagged(number: nat, p: seq<byte>)
    requires 0 < number < 16
    ensures DelimitedBytes(number, p) == Tagged(8 * number + 2, p)
  {
    hide EncodeVarint;
    Generated.OneByte(8 * number + 2);
  }

  lemma ScalarIsTagged(number: nat, v: nat)
    requires 0 < number < 16
    ensures ScalarBytes(number, v) == [8 * number] + EncodeVarint(v)
  {
    hide EncodeVarint;
    Generated.OneByte(8 * number);
  }

  /** Which field stands under which tag. */
  lemma CapacityLayout(a: int32, b: int32, e: int32)
    ensures EncodeCapacity(Capacity(Some(a), None, None)) == [0x08] + EncodeVarint(AsUint64(a))
    ensures EncodeCapacity(Capacity(None, Some(b), None)) == [0x10] + EncodeVarint(AsUint64(b))
    ensures EncodeCapacity(Capacity(None, None, Some(e))) == [0x18] + EncodeVarint(AsUint64(e))
  {
    hide ScalarBytes, EncodeVarint;
    ScalarIsTagged(1, AsUint64(a));
    ScalarIsTagged(2, AsUint64(b));
    ScalarIsTagged(3, AsUint64(e));
    EmptyAround(ScalarBytes(1, AsUint64(a)));
    EmptyAround(ScalarBytes(2, AsUint64(b)));
    EmptyAround(ScalarBytes(3, AsUint64(e)));
  }

  lemma SuspensionLayout(m: Suspension)
    ensures EncodeSuspension(m) == Tagged(0x0a, m.mode) + Tagged(0x12, m.reason)
  {
    hide DelimitedBytes, Tagged;
    DelimitedIsTagged(1, m.mode);
    DelimitedIsTagged(2, m.reason);
  }

  lemma StatusLayout(m: Status)
    ensures EncodeStatus(m) == [0x08, if m.online then 1 else 0]
  {
    ScalarIsTagged(1, if m.online then 1 else 0);
    Generated.OneByte(if m.online then 1 else 0);
  }

  lemma EntryLayout(c: Codec<Quantity>, key: Str, value: Quantity)
    ensures DelimitedBytes(1, EntryBody(c, key, value)) == Tagged(0x0a, Tagged(0x0a, key) + Tagged(0x12, c.encode(value)))
  {
    hide DelimitedBytes, Tagged;
    DelimitedIsTagged(1, key);
    DelimitedIsTagged(2, c.encode(value));
    DelimitedIsTagged(1, EntryBody(c, key, value));
  }

  function OptionalTagged(tag: byte, p: Option<seq<byte>>): seq<byte> {
    if p.None? then [] else Tagged(tag, p.value)
  }

  lemma OptionalIsTagged(number: nat, p: Option<seq<byte>>)
    requires 0 < number < 16
    ensures OptionalBytes(number, p) == OptionalTagged(8 * number + 2, p)
  {
    if p.Some? { DelimitedIsTagged(number, p.value); }
  }

  lemma SpecLayout(c: Codecs, m: Spec)
    ensures EncodeSpec(c, m) ==
            ([0x08] + EncodeVarint(AsUint64(m.id))) +
            (Tagged(0x12, EncodeQuota(c.quantity, m.quota)) +
             (OptionalTagged(0x1a, Encoded(m.suspension, EncodeSuspension)) +
              (OptionalTagged(0x22, Encoded(m.credentialValidity, c.duration.encode)) +
               OptionalTagged(0x2a, Encoded(m.capacity, EncodeCapacity)))))
  {
    hide ScalarBytes, EncodeVarint, DelimitedBytes, Tagged, OptionalBytes, OptionalTagged, EncodeQuota;
    ScalarIsTagged(1, AsUint64(m.id));
    DelimitedIsTagged(2, EncodeQuota(c.quantity, m.quota));
    OptionalIsTagged(3, Encoded(m.suspension, EncodeSuspension));
    OptionalIsTagged(4, Encoded(m.credentialValidity, c.duration.encode));
    OptionalIsTagged(5, Encoded(m.capacity, EncodeCapacity));
  }

  lemma TenantLayout(c: Codecs, m: Tenant)
    ensures EncodeTenant(c, m) ==
            Tagged(0x0a, c.objectMeta.encode(m.objectMeta)) + (Tagged(0x12, EncodeSpec(c, m.spec)) + Tagged(0x1a, EncodeStatus(m.status)))
  {
    hide DelimitedBytes, Tagged, EncodeSpec, EncodeStatus;
    DelimitedIsTagged(1, c.objectMeta.encode(m.objectMeta));
    DelimitedIsTagged(2, EncodeSpec(c, m.spec));
    DelimitedIsTagged(3, EncodeStatus(m.status));
  }

  lemma ClusterQuotaLayout(c: QuotaCodecs, m: ClusterQuota, name: Str)
    requires m.namespaces == [name]
    ensures EncodeClusterQuota(c, m) ==
            Tagged(0x0a, c.resourceQuotaSpec.encode(m.resourceQuotaSpec)) +
            (OptionalTagged(0x12, Encoded(m.namespaceSelector, c.labelSelector.encode)) + Tagged(0x1a, name))
  {
    hide DelimitedBytes, Tagged, OptionalBytes, OptionalTagged;
    DelimitedIsTagged(1, c.resourceQuotaSpec.encode(m.resourceQuotaSpec));
    OptionalIsTagged(2, Encoded(m.namespaceSelector, c.labelSelector.encode));
    DelimitedIsTagged(3, name);
    assert m.namespaces[1..] == [] && EncodeNamespaces([]) == [];
    EmptyAround(DelimitedBytes(3, name));
    assert EncodeNamespaces(m.namespaces) == DelimitedBytes(3, name);
  }

  /** Repeated fields stand in the order of their elements. */
  lemma RepeatedLayout(c: ObjectCodecs, name: Str, names: seq<Str>, item: QuotaObject, items: seq<QuotaObject>)
    ensures EncodeNamespaces([name] + names) == Tagged(0x1a, name) + EncodeNamespaces(names)
    ensures EncodeItems(c, [item] + items) == Tagged(0x12, EncodeObject(c, item)) + EncodeItems(c, items)
    ensures EncodeNamespaces([]) == [] && EncodeItems(c, []) == []
  {
    hide DelimitedBytes, Tagged, EncodeObject;
    DelimitedIsTagged(3, name);
    DelimitedIsTagged(2, EncodeObject(c, item));
    assert ([name] + names)[1..] == names && ([item] + items)[1..] == items;
  }

  /** And another element comes last. */
  lemma NameAppended(c: QuotaCodecs, m: ClusterQuota, name: Str)
    requires |name| <= MAX_INT
    ensures Decode(ClusterQuotaSchema(c), m, Tagged(0x1a, name)) == Ok(m.(namespaces := m.namespaces + [name]))
  {
    hide Decode, DelimitedBytes, Tagged;
    DelimitedIsTagged(3, name);
    PayloadAlone(ClusterQuotaSchema(c), m, 3, name, AppendNamespace, m.(namespaces := m.namespaces + [name]));
  }

  lemma QuotaObjectLayout(c: ObjectCodecs, m: QuotaObject)
    ensures EncodeObject(c, m) ==
            Tagged(0x0a, c.objectMeta.encode(m.objectMeta)) +
            (Tagged(0x12, EncodeClusterQuota(c.spec, m.spec)) +
             Tagged(0x1a, Tagged(0x0a, c.resourceQuotaStatus.encode(m.status.resourceQuotaStatus))))
  {
    hide DelimitedBytes, Tagged, EncodeClusterQuota;
    DelimitedIsTagged(1, c.objectMeta.encode(m.objectMeta));
    DelimitedIsTagged(2, EncodeClusterQuota(c.spec, m.spec));
    DelimitedIsTagged(3, EncodeQuotaStatus(c, m.status));
    DelimitedIsTagged(1, c.resourceQuotaStatus.encode(m.status.resourceQuotaStatus));
  }

  lemma QuotaListLayout(c: ObjectCodecs, m: QuotaList, item: QuotaObject)
    requires m.items == [item]
    ensures EncodeList(c, m) == Tagged(0x0a, c.listMeta.encode(m.listMeta)) + Tagged(0x12, EncodeObject(c, item))
  {
    hide DelimitedBytes, Tagged, EncodeObject;
    DelimitedIsTagged(1, c.listMeta.encode(m.listMeta));
    DelimitedIsTagged(2, EncodeObject(c, item));
    assert m.items[1..] == [] && EncodeItems(c, []) == [];
    EmptyAround(DelimitedBytes(2, EncodeObject(c, item)));
    assert EncodeItems(c, m.items) == DelimitedBytes(2, EncodeObject(c, item));
  }

  // ----------------------------------------------------------------- zero values

  /** What an empty input leaves of a new object. */
  lemma ZeroValues(c: Codecs)
    ensures ZERO_CAPACITY == Capacity(None, None, None) && ZERO_SUSPENSION == Suspension([], []) && ZERO_STATUS == Status(false)
    ensures ZERO_QUOTA == Quota(map[]) && ZERO_SPEC == Spec(0, Quota(map[]), None, None, None)
    ensures ZeroTenant(c) == Tenant(c.objectMeta.zero, Spec(0, Quota(map[]), None, None, None), Status(false))
  {
  }

  lemma QuotaZeroValues(c: ObjectCodecs)
    ensures ZeroClusterQuota(c.spec) == ClusterQuota(c.spec.resourceQuotaSpec.zero, None, [])
    ensures ZeroObject(c) ==
            QuotaObject(c.objectMeta.zero, ClusterQuota(c.spec.resourceQuotaSpec.zero, None, []), QuotaStatus(c.resourceQuotaStatus.zero))
    ensures ZeroList(c) == QuotaList(c.listMeta.zero, [])
  {
  }

  // ------------------------------------------------------ scalars, however spelled

  /** A scalar field, its value in any spelling, takes the place of what was there. */
  lemma ScalarSpelled<M>(s: Schema<M>, m: M, number: nat, w: seq<byte>)
    requires 0 < number < 16 && IsVarint(w) && s(number).Scalar?
    ensures Decode(s, m, [8 * number] + w) == Ok(s(number).store(m, ValueOf(w)))
  {
    hide ReadVarint, EncodeVarint, IsVarint, ValueOf;
    var d := [8 * number] + w;
    Generated.OneByte(8 * number);
    Whole(d);
    AtConcat(d, 0, [8 * number], w);
    KeyRead(d, 0, number, 0);
    ReadAt(d, 1, w);
    assert Step(s, m, d, 0) == Ok(State(s(number).store(m, ValueOf(w)), |d|));
    DecodeEnd(s, s(number).store(m, ValueOf(w)), d);
  }

  /** The low 32 bits, as an int32, of the value spelled, whatever the field held. */
  lemma CapacityFieldsWin(m: Capacity, w: seq<byte>)
    requires IsVarint(w)
    ensures var v := Some(Signed(ValueOf(w), W32));
            && Decode(CapacitySchema(), m, [0x08] + w) == Ok(Capacity(v, m.maxClusterRoleBindings, m.maxCRDs))
            && Decode(CapacitySchema(), m, [0x10] + w) == Ok(Capacity(m.maxNamespaces, v, m.maxCRDs))
            && Decode(CapacitySchema(), m, [0x18] + w) == Ok(Capacity(m.maxNamespaces, m.maxClusterRoleBindings, v))
  {
    hide Decode, IsVarint;
    var v := ValueOf(w);
    ScalarSpelled(CapacitySchema(), m, 1, w);
    ScalarSpelled(CapacitySchema(), m, 2, w);
    ScalarSpelled(CapacitySchema(), m, 3, w);
    assert CapacitySchema()(1).store(m, v) == m.(maxNamespaces := Some(Int32(v)));
    assert CapacitySchema()(2).store(m, v) == m.(maxClusterRoleBindings := Some(Int32(v)));
    assert CapacitySchema()(3).store(m, v) == m.(maxCRDs := Some(Int32(v)));
  }

  lemma IdWins(c: Codecs, m: Spec, w: seq<byte>)
    requires IsVarint(w)
    ensures Decode(SpecSchema(c), m, [0x08] + w) == Ok(m.(id := Signed(ValueOf(w), W32)))
  {
    hide Decode, IsVarint;
    ScalarSpelled(SpecSchema(c), m, 1, w);
    assert SpecSchema(c)(1).store(m, ValueOf(w)) == m.(id := Int32(ValueOf(w)));
  }

  /** Anything but zero in 64 bits is true. */
  lemma OnlineWins(m: Status, w: seq<byte>)
    requires IsVarint(w)
    ensures Decode(StatusSchema(), m, [0x08] + w) == Ok(Status(ValueOf(w) % TWO_TO_64 != 0))
  {
    hide Decode, IsVarint, ValueOf;
    ScalarSpelled(StatusSchema(), m, 1, w);
  }

  // -------------------------------------------------------------------- overlays

  lemma NothingFitsAny<M>(s: Schema<M>, parts: nat)
    ensures Fits(s, Nothing(parts), parts)
  {
  }

  function Over<T>(below: Option<T>, above: Option<T>): Option<T> {
    if above.Some? then above else below
  }

  function CapacityOver(m: Capacity, n: Capacity): Capacity {
    Capacity(Over(m.maxNamespaces, n.maxNamespaces),
             Over(m.maxClusterRoleBindings, n.maxClusterRoleBindings),
             Over(m.maxCRDs, n.maxCRDs))
  }

  /** Each field that the input has takes the place of what was there; the others stay. */
  lemma CapacityOverlay(m: Capacity, n: Capacity)
    ensures Decode(CapacitySchema(), m, EncodeCapacity(n)) == Ok(CapacityOver(m, n))
  {
    hide Decode, Interleaved, OptionalInt32, AllIgnored;
    var s, parts := CapacitySchema(), CapacityParts(n);
    var m1 := m.(maxNamespaces := Over(m.maxNamespaces, n.maxNamespaces));
    var m2 := m1.(maxClusterRoleBindings := Over(m.maxClusterRoleBindings, n.maxClusterRoleBindings));
    var ms := [m, m1, m2, CapacityOver(m, n)];
    OptionalInt32Alone(s, m, 1, n.maxNamespaces);
    OptionalInt32Alone(s, m1, 2, n.maxClusterRoleBindings);
    OptionalInt32Alone(s, m2, 3, n.maxCRDs);
    CapacityIsStable();
    NothingFitsAny(s, 3);
    assert forall j | 0 <= j < 3 :: Decode(s, ms[j], parts[j]) == Ok(ms[j + 1]);
    InterleavedIsRead(s, ms, parts, Nothing(3), 0);
    CapacityWithNothing(n);
  }

  /** Last One Wins: of two capacities, one after the other, the second over the first. */
  lemma CapacitiesOverlay(a: Capacity, b: Capacity)
    ensures Decode(CapacitySchema(), ZERO_CAPACITY, EncodeCapacity(a) + EncodeCapacity(b)) == Ok(CapacityOver(a, b))
  {
    hide Decode, EncodeCapacity;
    CapacityIsStable();
    CapacityRoundTrip(a);
    CapacityOverlay(a, b);
    ConcatenationMerges(CapacitySchema(), ZERO_CAPACITY, EncodeCapacity(a), EncodeCapacity(b));
  }

  /** Both strings are always there, so both are replaced. */
  lemma SuspensionOverlay(m: Suspension, n: Suspension)
    requires |EncodeSuspension(n)| <= MAX_INT
    ensures Decode(SuspensionSchema(), m, EncodeSuspension(n)) == Ok(n)
  {
    hide Decode, DelimitedBytes, Interleaved, AllIgnored;
    var s, parts := SuspensionSchema(), SuspensionParts(n);
    var m1 := m.(mode := n.mode);
    var ms := [m, m1, n];
    SuspensionWithNothing(n);
    PartWithin(parts, Nothing(2), 0, 0);
    PartWithin(parts, Nothing(2), 0, 1);
    DelimitedLength(1, n.mode);
    DelimitedLength(2, n.reason);
    PayloadAlone(s, m, 1, n.mode, SetMode, m1);
    PayloadAlone(s, m1, 2, n.reason, SetReason, n);
    SuspensionIsStable();
    NothingFitsAny(s, 2);
    assert forall j | 0 <= j < 2 :: Decode(s, ms[j], parts[j]) == Ok(ms[j + 1]);
    InterleavedIsRead(s, ms, parts, Nothing(2), 0);
  }

  /** Either string alone leaves the other. */
  lemma SuspensionFieldsWin(m: Suspension, p: Str)
    requires |p| <= MAX_INT
    ensures Decode(SuspensionSchema(), m, Tagged(0x0a, p)) == Ok(Suspension(p, m.reason))
    ensures Decode(SuspensionSchema(), m, Tagged(0x12, p)) == Ok(Suspension(m.mode, p))
  {
    hide Decode, DelimitedBytes, Tagged;
    DelimitedIsTagged(1, p);
    DelimitedIsTagged(2, p);
    PayloadAlone(SuspensionSchema(), m, 1, p, SetMode, m.(mode := p));
    PayloadAlone(SuspensionSchema(), m, 2, p, SetReason, m.(reason := p));
  }

  lemma StatusOverlay(m: Status, n: Status)
    ensures Decode(StatusSchema(), m, EncodeStatus(n)) == Ok(n)
  {
    hide Decode, ScalarBytes;
    ScalarAlone(StatusSchema(), m, 1, if n.online then 1 else 0);
  }

  /** The keys of the input take the place of the same keys; the others stay. */
  lemma QuotaOverlay(c: Codec<Quantity>, m: Quota, n: Quota)
    requires Lawful(c) && |EncodeQuota(c, n)| <= MAX_INT
    ensures Decode(QuotaSchema(c), m, EncodeQuota(c, n)) == Ok(Quota(m.hard + n.hard))
  {
    hide Decode, EncodeEntries;
    var keys := Listing(n.hard.Keys);
    ListingElements(n.hard.Keys);
    Whole(EncodeQuota(c, n));
    EntriesRead(c, m, EncodeQuota(c, n), 0, keys, n.hard);
    assert Only(n.hard, keys) == n.hard;
  }

  // ----------------------------------------------------------------- map entries

  lemma KeyFieldWins(c: Codec<Quantity>, d: seq<byte>, post: nat, e: Entry, key: Str)
    requires |key| <= MAX_INT && At(d, e.end, DelimitedBytes(1, key))
    ensures EntryStep(c, d, post, e) == Ok(Entry(key, e.value, e.end + |DelimitedBytes(1, key)|))
  {
    hide EncodeVarint, ReadVarint, ReadExtent;
    AtConcat(d, e.end, Key(1, 2), EncodeVarint(|key|) + key);
    ReadEncodedUint64(d, e.end, 10);
    ExtentRead(d, e.end + |Key(1, 2)|, key);
  }

  lemma ValueFieldWins(c: Codec<Quantity>, d: seq<byte>, post: nat, e: Entry, value: Quantity)
    requires Lawful(c) && |c.encode(value)| <= MAX_INT && At(d, e.end, DelimitedBytes(2, c.encode(value)))
    ensures EntryStep(c, d, post, e) == Ok(Entry(e.key, value, e.end + |DelimitedBytes(2, c.encode(value))|))
  {
    hide EncodeVarint, ReadVarint, ReadExtent;
    var p := c.encode(value);
    AtConcat(d, e.end, Key(2, 2), EncodeVarint(|p|) + p);
    ReadEncodedUint64(d, e.end, 18);
    ExtentRead(d, e.end + |Key(2, 2)|, p);
  }

  /** The last key and the last value of an entry count; a value is read anew, and not
      merged into the one before it. */
  lemma LastOfEntryWins(c: Codec<Quantity>, d: seq<byte>, start: nat, key: Str, value: Quantity, key': Str, value': Quantity)
    requires var k, v, k', v' := DelimitedBytes(1, key), DelimitedBytes(2, c.encode(value)), DelimitedBytes(1, key'), DelimitedBytes(2, c.encode(value'));
             Lawful(c) && At(d, start, k + (v + (k' + v'))) && |d| <= MAX_INT
    ensures var n := |DelimitedBytes(1, key)| + |DelimitedBytes(2, c.encode(value))| + |DelimitedBytes(1, key')| + |DelimitedBytes(2, c.encode(value'))|;
            EntryLoop(c, d, start + n, Entry([], c.zero, start)) == Ok(Entry(key', value', start + n))
  {
    hide DelimitedBytes, EntryStep, EntryLoop;
    var k, v, k', v' := DelimitedBytes(1, key), DelimitedBytes(2, c.encode(value)), DelimitedBytes(1, key'), DelimitedBytes(2, c.encode(value'));
    AtConcat(d, start, k, v + (k' + v'));
    AtConcat(d, start + |k|, v, k' + v');
    AtConcat(d, start + |k| + |v|, k', v');
    DelimitedLength(1, key);
    DelimitedLength(2, c.encode(value));
    DelimitedLength(1, key');
    DelimitedLength(2, c.encode(value'));
    var post := start + |k| + |v| + |k'| + |v'|;
    var e0, e1 := Entry([], c.zero, start), Entry(key, c.zero, start + |k|);
    var e2 := Entry(key, value, e1.end + |v|);
    var e3 := Entry(key', value, e2.end + |k'|);
    KeyFieldWins(c, d, post, e0, key);
    NextEntryField(c, d, post, e0, e1);
    ValueFieldWins(c, d, post, e1, value);
    NextEntryField(c, d, post, e1, e2);
    KeyFieldWins(c, d, post, e2, key');
    NextEntryField(c, d, post, e2, e3);
    ValueFieldWins(c, d, post, e3, value');
    NextEntryField(c, d, post, e3, Entry(key', value', post));
    LoopEnds(c, d, post, Entry(key', value', post));
  }

  /** An entry with neither is the empty key with the zero value. */
  lemma EmptyEntry(c: Codec<Quantity>, m: Quota)
    ensures Decode(QuotaSchema(c), m, [0x0a, 0]) == Ok(Quota(m.hard[[] := c.zero]))
  {
    var d: seq<byte> := [0x0a, 0];
    assert ReadTag(d, 0) == Ok(Tag(1, 2, 1)) && ReadExtent(d, 1) == Ok(Extent(2, 2));
    DecodeEnd(QuotaSchema(c), Quota(m.hard[[] := c.zero]), d);
  }

  /** The wire type of a key is not looked at: a key under the tag of a varint is read
      as any other. */
  lemma WireTypeOfKeyIgnored(c: Codec<Quantity>, m: Quota, b: byte)
    ensures Decode(QuotaSchema(c), m, [0x0a, 3, 0x08, 1, b]) == Ok(Quota(m.hard[[b] := c.zero]))
  {
    hide Decode;
    var d: seq<byte> := [0x0a, 3, 0x08, 1, b];
    assert ReadTag(d, 0) == Ok(Tag(1, 2, 1)) && ReadExtent(d, 1) == Ok(Extent(2, 5));
    assert ReadVarint(d, 2) == Ok(Varint(8, 3)) && FieldNumber(8) == 1;
    assert ReadExtent(d, 3) == Ok(Extent(4, 5)) && d[4..5] == [b];
    hide ReadVarint, ReadExtent, ReadTag;
    assert EntryStep(c, d, 5, Entry([], c.zero, 2)) == Ok(Entry([b], c.zero, 5));
    NextEntryField(c, d, 5, Entry([], c.zero, 2), Entry([b], c.zero, 5));
    LoopEnds(c, d, 5, Entry([b], c.zero, 5));
    var out := Quota(m.hard[[b] := c.zero]);
    assert Step(QuotaSchema(c), m, d, 0) == Ok(State(out, 5));
    StepThenEnd(QuotaSchema(c), m, d, out);
  }

  lemma StepThenEnd<M>(s: Schema<M>, m: M, d: seq<byte>, out: M)
    requires d != [] && Step(s, m, d, 0) == Ok(State(out, |d|))
    ensures Decode(s, m, d) == Ok(out)
  {
    DecodeEnd(s, out, d);
  }

  /** What a foreign submessage becomes: merged into what is there, or into its zero. */
  predicate MergedOver<T(==)>(c: Codec<T>, below: Option<T>, above: Option<T>, out: Option<T>) {
    if above.None? then out == below
    else out.Some? && c.merge(if below.Some? then below.value else c.zero, c.encode(above.value)) == Ok(out.value)
  }

  function SpecOver(m: Spec, n: Spec, validity: Option<Duration>): Spec {
    Spec(n.id,
         Quota(m.quota.hard + n.quota.hard),
         Over(m.suspension, n.suspension),
         validity,
         if n.capacity.None? then m.capacity
         else Some(CapacityOver(if m.capacity.Some? then m.capacity.value else ZERO_CAPACITY, n.capacity.value)))
  }

  lemma QuotaFieldOver(c: Codecs, m: Spec, n: Quota)
    requires Lawful(c.quantity) && |EncodeQuota(c.quantity, n)| <= MAX_INT
    ensures Decode(SpecSchema(c), m, DelimitedBytes(2, EncodeQuota(c.quantity, n))) == Ok(m.(quota := Quota(m.quota.hard + n.hard)))
  {
    hide Decode, DelimitedBytes, EncodeQuota;
    QuotaOverlay(c.quantity, m.quota, n);
    PayloadAlone(SpecSchema(c), m, 2, EncodeQuota(c.quantity, n), (m: Spec, p: seq<byte>) => MergeQuota(c, m, p), m.(quota := Quota(m.quota.hard + n.hard)));
  }

  lemma SuspensionFieldOver(c: Codecs, m: Spec, n: Option<Suspension>)
    requires n.Some? ==> |EncodeSuspension(n.value)| <= MAX_INT
    ensures Decode(SpecSchema(c), m, OptionalBytes(3, Encoded(n, EncodeSuspension))) == Ok(m.(suspension := Over(m.suspension, n)))
  {
    hide Decode, OptionalBytes, EncodeSuspension;
    if n.Some? { SuspensionOverlay(if m.suspension.Some? then m.suspension.value else ZERO_SUSPENSION, n.value); }
    OptionalAlone(SpecSchema(c), m, 3, Encoded(n, EncodeSuspension),
                  (m: Spec, p: seq<byte>) => MergeSuspension(m, p), m.(suspension := Over(m.suspension, n)));
  }

  lemma ValidityFieldOver(c: Codecs, m: Spec, n: Option<Duration>, out: Option<Duration>)
    requires MergedOver(c.duration, m.credentialValidity, n, out) && (n.Some? ==> |c.duration.encode(n.value)| <= MAX_INT)
    ensures Decode(SpecSchema(c), m, OptionalBytes(4, Encoded(n, c.duration.encode))) == Ok(m.(credentialValidity := out))
  {
    hide Decode, OptionalBytes;
    OptionalAlone(SpecSchema(c), m, 4, Encoded(n, c.duration.encode),
                  (m: Spec, p: seq<byte>) => MergeValidity(c, m, p), m.(credentialValidity := out));
  }

  lemma CapacityFieldOver(c: Codecs, m: Spec, n: Option<Capacity>, out: Option<Capacity>)
    requires n.Some? ==> |EncodeCapacity(n.value)| <= MAX_INT
    requires out == if n.None? then m.capacity
                    else Some(CapacityOver(if m.capacity.Some? then m.capacity.value else ZERO_CAPACITY, n.value))
    ensures Decode(SpecSchema(c), m, OptionalBytes(5, Encoded(n, EncodeCapacity))) == Ok(m.(capacity := out))
  {
    hide Decode, OptionalBytes, EncodeCapacity, CapacityOver;
    if n.Some? { CapacityOverlay(if m.capacity.Some? then m.capacity.value else ZERO_CAPACITY, n.value); }
    OptionalAlone(SpecSchema(c), m, 5, Encoded(n, EncodeCapacity),
                  (m: Spec, p: seq<byte>) => MergeCapacity(m, p), m.(capacity := out));
  }

  ghost function EncodedParts(c: Codecs, n: Spec): seq<seq<byte>> {
    [ScalarBytes(1, AsUint64(n.id)),
     DelimitedBytes(2, EncodeQuota(c.quantity, n.quota)),
     OptionalBytes(3, Encoded(n.suspension, EncodeSuspension)),
     OptionalBytes(4, Encoded(n.credentialValidity, c.duration.encode)),
     OptionalBytes(5, Encoded(n.capacity, EncodeCapacity))]
  }

  lemma EncodedPartLengths(c: Codecs, n: Spec)
    requires |EncodeSpec(c, n)| <= MAX_INT
    ensures |EncodeQuota(c.quantity, n.quota)| <= MAX_INT
    ensures n.suspension.Some? ==> |EncodeSuspension(n.suspension.value)| <= MAX_INT
    ensures n.credentialValidity.Some? ==> |c.duration.encode(n.credentialValidity.value)| <= MAX_INT
    ensures n.capacity.Some? ==> |EncodeCapacity(n.capacity.value)| <= MAX_INT
  {
    hide DelimitedBytes, OptionalBytes, ScalarBytes, EncodeQuota, EncodeSuspension, EncodeCapacity;
    DelimitedLength(2, EncodeQuota(c.quantity, n.quota));
    OptionalLength(3, Encoded(n.suspension, EncodeSuspension));
    OptionalLength(4, Encoded(n.credentialValidity, c.duration.encode));
    OptionalLength(5, Encoded(n.capacity, EncodeCapacity));
  }

  /** A whole spec decoded into another: the id and the suspension replaced, the quota
      key by key, the capacity field by field, the validity merged; what the input does
      not have stays. */
  lemma SpecOverlay(c: Codecs, m: Spec, n: Spec, validity: Option<Duration>)
    requires Lawful(c.quantity) && |EncodeSpec(c, n)| <= MAX_INT
    requires MergedOver(c.duration, m.credentialValidity, n.credentialValidity, validity)
    ensures Decode(SpecSchema(c), m, EncodeSpec(c, n)) == Ok(SpecOver(m, n, validity))
  {
    hide Decode, Interleaved, AllIgnored, DelimitedBytes, OptionalBytes, ScalarBytes, EncodeQuota, EncodeSuspension, EncodeCapacity, CapacityOver;
    EncodedPartLengths(c, n);
    var s, parts, out := SpecSchema(c), EncodedParts(c, n), SpecOver(m, n, validity);
    var m1 := m.(id := n.id);
    var m2 := m1.(quota := out.quota);
    var m3 := m2.(suspension := out.suspension);
    var m4 := m3.(credentialValidity := validity);
    var ms := [m, m1, m2, m3, m4, out];
    IdAlone(c, m, n.id);
    QuotaFieldOver(c, m1, n.quota);
    SuspensionFieldOver(c, m2, n.suspension);
    ValidityFieldOver(c, m3, n.credentialValidity, validity);
    CapacityFieldOver(c, m4, n.capacity, out.capacity);
    SpecIsStable(c);
    NothingFitsAny(s, 5);
    assert forall j | 0 <= j < 5 :: Decode(s, ms[j], parts[j]) == Ok(ms[j + 1]);
    InterleavedIsRead(s, ms, parts, Nothing(5), 0);
    FiveParts(parts);
  }

  /** A whole tenant decoded into another: metadata and spec merged, status replaced. */
  lemma TenantOverlay(c: Codecs, m: Tenant, n: Tenant, meta: ObjectMeta, validity: Option<Duration>)
    requires Lawful(c.quantity) && |EncodeTenant(c, n)| <= MAX_INT
    requires c.objectMeta.merge(m.objectMeta, c.objectMeta.encode(n.objectMeta)) == Ok(meta)
    requires MergedOver(c.duration, m.spec.credentialValidity, n.spec.credentialValidity, validity)
    ensures Decode(TenantSchema(c), m, EncodeTenant(c, n)) == Ok(Tenant(meta, SpecOver(m.spec, n.spec, validity), n.status))
  {
    hide Decode, DelimitedBytes, EncodeSpec, SpecOver, EncodeStatus;
    var d, s := EncodeTenant(c, n), TenantSchema(c);
    var p1, p2, p3 := c.objectMeta.encode(n.objectMeta), EncodeSpec(c, n.spec), EncodeStatus(n.status);
    var x1, x2, x3 := DelimitedBytes(1, p1), DelimitedBytes(2, p2), DelimitedBytes(3, p3);
    Whole(d);
    AtConcat(d, 0, x1, x2 + x3);
    AtConcat(d, |x1|, x2, x3);
    DelimitedLength(1, p1);
    DelimitedLength(2, p2);
    DelimitedLength(3, p3);
    SpecOverlay(c, m.spec, n.spec, validity);
    StatusOverlay(m.status, n.status);
    var m1 := m.(objectMeta := meta);
    var m2 := m1.(spec := SpecOver(m.spec, n.spec, validity));
    PayloadField(s, m, d, 0, 1, p1, (m: Tenant, p: seq<byte>) => MergeMeta(c, m, p), m1);
    PayloadField(s, m1, d, |x1|, 2, p2, (m: Tenant, p: seq<byte>) => MergeSpec(c, m, p), m2);
    PayloadField(s, m2, d, |x1| + |x2|, 3, p3, (m: Tenant, p: seq<byte>) => MergeStatus(m, p), m2.(status := n.status));
    DecodeEnd(s, m2.(status := n.status), d);
  }

  // --------------------------------------------------------------- quota messages

  function ClusterQuotaOver(m: ClusterQuota, n: ClusterQuota, inner: ResourceQuotaSpec, selector: Option<LabelSelector>): ClusterQuota {
    ClusterQuota(inner, selector, m.namespaces + n.namespaces)
  }

  /** Both submessages merged into what is there, the names appended. */
  lemma ClusterQuotaOverlay(c: QuotaCodecs, m: ClusterQuota, n: ClusterQuota, inner: ResourceQuotaSpec, selector: Option<LabelSelector>)
    requires |EncodeClusterQuota(c, n)| <= MAX_INT
    requires c.resourceQuotaSpec.merge(m.resourceQuotaSpec, c.resourceQuotaSpec.encode(n.resourceQuotaSpec)) == Ok(inner)
    requires MergedOver(c.labelSelector, m.namespaceSelector, n.namespaceSelector, selector)
    ensures Decode(ClusterQuotaSchema(c), m, EncodeClusterQuota(c, n)) == Ok(ClusterQuotaOver(m, n, inner, selector))
  {
    hide Decode, DelimitedBytes, OptionalBytes, EncodeNamespaces;
    var s, d, p := ClusterQuotaSchema(c), EncodeClusterQuota(c, n), c.resourceQuotaSpec.encode(n.resourceQuotaSpec);
    var x1, x2, x3 := DelimitedBytes(1, p), OptionalBytes(2, Encoded(n.namespaceSelector, c.labelSelector.encode)), EncodeNamespaces(n.namespaces);
    Whole(d);
    AtConcat(d, 0, x1, x2 + x3);
    AtConcat(d, |x1|, x2, x3);
    DelimitedLength(1, p);
    var m1 := m.(resourceQuotaSpec := inner);
    var m2 := m1.(namespaceSelector := selector);
    PayloadField(s, m, d, 0, 1, p, (m: ClusterQuota, p: seq<byte>) => MergeResourceQuotaSpec(c, m, p), m1);
    OptionalField(s, m1, d, |x1|, 2, n.namespaceSelector, c.labelSelector.encode,
                  (m: ClusterQuota, p: seq<byte>) => MergeSelector(c, m, p), m2);
    NamespacesRead(c, m2, d, |x1| + |x2|, n.namespaces);
  }

  lemma QuotaStatusOverlay(c: ObjectCodecs, m: QuotaStatus, n: QuotaStatus, out: ResourceQuotaStatus)
    requires |EncodeQuotaStatus(c, n)| <= MAX_INT
    requires c.resourceQuotaStatus.merge(m.resourceQuotaStatus, c.resourceQuotaStatus.encode(n.resourceQuotaStatus)) == Ok(out)
    ensures Decode(QuotaStatusSchema(c), m, EncodeQuotaStatus(c, n)) == Ok(QuotaStatus(out))
  {
    hide Decode, DelimitedBytes;
    var p := c.resourceQuotaStatus.encode(n.resourceQuotaStatus);
    DelimitedLength(1, p);
    PayloadAlone(QuotaStatusSchema(c), m, 1, p, (m: QuotaStatus, p: seq<byte>) => MergeQuotaStatus(c, m, p), QuotaStatus(out));
  }

  /** All three submessages merged into what is there. */
  lemma QuotaObjectOverlay(c: ObjectCodecs, m: QuotaObject, n: QuotaObject, meta: ObjectMeta, inner: ResourceQuotaSpec,
                           selector: Option<LabelSelector>, status: ResourceQuotaStatus)
    requires |EncodeObject(c, n)| <= MAX_INT
    requires c.objectMeta.merge(m.objectMeta, c.objectMeta.encode(n.objectMeta)) == Ok(meta)
    requires c.spec.resourceQuotaSpec.merge(m.spec.resourceQuotaSpec, c.spec.resourceQuotaSpec.encode(n.spec.resourceQuotaSpec)) == Ok(inner)
    requires MergedOver(c.spec.labelSelector, m.spec.namespaceSelector, n.spec.namespaceSelector, selector)
    requires c.resourceQuotaStatus.merge(m.status.resourceQuotaStatus, c.resourceQuotaStatus.encode(n.status.resourceQuotaStatus)) == Ok(status)
    ensures Decode(ObjectSchema(c), m, EncodeObject(c, n)) ==
            Ok(QuotaObject(meta, ClusterQuotaOver(m.spec, n.spec, inner, selector), QuotaStatus(status)))
  {
    hide Decode, DelimitedBytes, EncodeClusterQuota, EncodeQuotaStatus, ClusterQuotaOver;
    var s, d := ObjectSchema(c), EncodeObject(c, n);
    var p1, p2, p3 := c.objectMeta.encode(n.objectMeta), EncodeClusterQuota(c.spec, n.spec), EncodeQuotaStatus(c, n.status);
    var x1, x2, x3 := DelimitedBytes(1, p1), DelimitedBytes(2, p2), DelimitedBytes(3, p3);
    Whole(d);
    AtConcat(d, 0, x1, x2 + x3);
    AtConcat(d, |x1|, x2, x3);
    DelimitedLength(1, p1);
    DelimitedLength(2, p2);
    DelimitedLength(3, p3);
    ClusterQuotaOverlay(c.spec, m.spec, n.spec, inner, selector);
    QuotaStatusOverlay(c, m.status, n.status, status);
    var m1 := m.(objectMeta := meta);
    var m2 := m1.(spec := ClusterQuotaOver(m.spec, n.spec, inner, selector));
    var m3 := m2.(status := QuotaStatus(status));
    PayloadField(s, m, d, 0, 1, p1, (m: QuotaObject, p: seq<byte>) => MergeObjectMeta(c, m, p), m1);
    PayloadField(s, m1, d, |x1|, 2, p2, (m: QuotaObject, p: seq<byte>) => MergeObjectSpec(c, m, p), m2);
    PayloadField(s, m2, d, |x1| + |x2|, 3, p3, (m: QuotaObject, p: seq<byte>) => MergeObjectStatus(c, m, p), m3);
    DecodeEnd(s, m3, d);
  }

  /** Metadata merged, items appended. */
  lemma QuotaListOverlay(c: ObjectCodecs, m: QuotaList, n: QuotaList, meta: ListMeta)
    requires ObjectsLawful(c) && |EncodeList(c, n)| <= MAX_INT
    requires c.listMeta.merge(m.listMeta, c.listMeta.encode(n.listMeta)) == Ok(meta)
    ensures Decode(ListSchema(c), m, EncodeList(c, n)) == Ok(QuotaList(meta, m.items + n.items))
  {
    hide Decode, DelimitedBytes, EncodeItems, ObjectSchema, ZeroObject;
    var s, d, p := ListSchema(c), EncodeList(c, n), c.listMeta.encode(n.listMeta);
    var x1, x2 := DelimitedBytes(1, p), EncodeItems(c, n.items);
    Whole(d);
    AtConcat(d, 0, x1, x2);
    DelimitedLength(1, p);
    var m1 := m.(listMeta := meta);
    PayloadField(s, m, d, 0, 1, p, (m: QuotaList, p: seq<byte>) => MergeListMeta(c, m, p), m1);
    ItemsRead(c, m1, d, |x1|, n.items);
  }
}
