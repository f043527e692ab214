/** Messages written by a newer program: any number of fields that this one does not
    know, between the known ones, in a TenantSpec and at every depth inside it, down to
    the entries of the quota's map. They are read as if the fields were not there. */
module NewerMessages {
  import opened Common
  import opened Varint
  import opened WireFields
  import opened Message
  import opened SortedKeys
  import opened TenantMessages

  // -------------------------------------------------- any number of unknown fields

  /** The fields before, between and after the known parts of a message. */
  type Extras = seq<seq<Field>>

  predicate AllIgnored<M>(s: Schema<M>, fs: seq<Field>) {
    forall k | 0 <= k < |fs| :: Ignored(s, fs[k])
  }

  predicate Fits<M>(s: Schema<M>, extras: Extras, parts: nat) {
    |extras| == parts + 1 && forall k | 0 <= k < |extras| :: AllIgnored(s, extras[k])
  }

  /** The message from its k-th part on, with the extras. */
  function Interleaved(parts: seq<seq<byte>>, extras: Extras, k: nat := 0): seq<byte>
    requires |extras| == |parts| + 1 && k <= |parts|
    decreases |parts| - k
  {
    if k == |parts| then AllBytes(extras[k])
    else AllBytes(extras[k]) + (parts[k] + Interleaved(parts, extras, k + 1))
  }

  lemma {:induction false} PartWithin(parts: seq<seq<byte>>, extras: Extras, k: nat, j: nat)
    requires |extras| == |parts| + 1 && k <= j < |parts|
    ensures |parts[j]| <= |Interleaved(parts, extras, k)|
    decreases |parts| - k
  {
    if k < j { PartWithin(parts, extras, k + 1, j); }
  }

  lemma {:induction false} ExtrasAlone<M(!new)>(s: Schema<M>, m: M, fs: seq<Field>)
    requires Stable(s) && AllIgnored(s, fs)
    ensures Decode(s, m, AllBytes(fs)) == Ok(m)
    decreases |fs|
  {
    hide Decode, Ignored, Bytes;
    if fs == [] {
      DecodeEnd(s, m, []);
    } else {
      IgnoredAlone(s, m, fs[0]);
      ConcatenationMerges(s, m, Bytes(fs[0]), AllBytes(fs[1..]));
      ExtrasAlone(s, m, fs[1..]);
    }
  }

  /** If each part takes the message from one value to the next, so does the whole,
      whatever unknown fields stand in between. */
  lemma {:induction false} InterleavedIsRead<M(!new)>(s: Schema<M>, ms: seq<M>, parts: seq<seq<byte>>, extras: Extras, k: nat)
    requires Stable(s) && Fits(s, extras, |parts|) && |ms| == |parts| + 1 && k <= |parts|
    requires forall j | 0 <= j < |parts| :: Decode(s, ms[j], parts[j]) == Ok(ms[j + 1])
    ensures Decode(s, ms[k], Interleaved(parts, extras, k)) == Ok(ms[|parts|])
    decreases |parts| - k
  {
    hide Decode, Ignored;
    ExtrasAlone(s, ms[k], extras[k]);
    if k < |parts| {
      var rest := Interleaved(parts, extras, k + 1);
      assert Decode(s, ms[k], parts[k]) == Ok(ms[k + 1]);
      ConcatenationMerges(s, ms[k], AllBytes(extras[k]), parts[k] + rest);
      ConcatenationMerges(s, ms[k], parts[k], rest);
      InterleavedIsRead(s, ms, parts, extras, k + 1);
    }
  }

  // ------------------------------------------------------------- parts by themselves

  lemma ScalarAlone<M>(s: Schema<M>, m: M, number: nat, v: nat)
    requires 0 < number < 16 && v < TWO_TO_64 && s(number).Scalar?
    ensures Decode(s, m, ScalarBytes(number, v)) == Ok(s(number).store(m, v))
  {
    hide Decode, ScalarBytes;
    Whole(ScalarBytes(number, v));
    ScalarField(s, m, ScalarBytes(number, v), 0, number, v);
    DecodeEnd(s, s(number).store(m, v), ScalarBytes(number, v));
  }

  lemma OptionalInt32Alone<M>(s: Schema<M>, m: M, number: nat, v: Option<int32>)
    requires 0 < number < 16 && s(number).Scalar?
    ensures Decode(s, m, OptionalInt32(number, v)) == Ok(if v.None? then m else s(number).store(m, AsUint64(v.value)))
    ensures v.Some? ==> Int32(AsUint64(v.value)) == v.value
  {
    hide Decode, ScalarBytes;
    var d := OptionalInt32(number, v);
    Whole(d);
    OptionalInt32Field(s, m, d, 0, number, v);
    DecodeEnd(s, if v.None? then m else s(number).store(m, AsUint64(v.value)), d);
  }

  lemma PayloadAlone<M>(s: Schema<M>, m: M, number: nat, p: seq<byte>, f: (M, seq<byte>) -> Result<M>, merged: M)
    requires 0 < number < 16 && |p| <= MAX_INT && s(number) == Payload(f) && f(m, p) == Ok(merged)
    ensures Decode(s, m, DelimitedBytes(number, p)) == Ok(merged)
  {
    hide Decode, DelimitedBytes;
    Whole(DelimitedBytes(number, p));
    PayloadField(s, m, DelimitedBytes(number, p), 0, number, p, f, merged);
    DecodeEnd(s, merged, DelimitedBytes(number, p));
  }

  lemma OptionalAlone<M>(s: Schema<M>, m: M, number: nat, p: Option<seq<byte>>, f: (M, seq<byte>) -> Result<M>, merged: M)
    requires 0 < number < 16 && s(number) == Payload(f)
    requires if p.None? then merged == m else |p.value| <= MAX_INT && f(m, p.value) == Ok(merged)
    ensures Decode(s, m, OptionalBytes(number, p)) == Ok(merged)
  {
    hide Decode, DelimitedBytes;
    if p.None? {
      DecodeEnd(s, m, []);
    } else {
      PayloadAlone(s, m, number, p.value, f, merged);
    }
  }

  lemma OptionalLength(number: nat, p: Option<seq<byte>>)
    ensures p.Some? ==> |p.value| < |OptionalBytes(number, p)|
  {
  }

  // --------------------------------------------------------- capacity, suspension

  function CapacityParts(m: Capacity): seq<seq<byte>> {
    [OptionalInt32(1, m.maxNamespaces), OptionalInt32(2, m.maxClusterRoleBindings), OptionalInt32(3, m.maxCRDs)]
  }

  lemma NewerCapacityIsRead(m: Capacity, extras: Extras)
    requires Fits(CapacitySchema(), extras, 3)
    ensures Decode(CapacitySchema(), ZERO_CAPACITY, Interleaved(CapacityParts(m), extras)) == Ok(m)
  {
    hide Decode, Interleaved, OptionalInt32, AllIgnored;
    var s := CapacitySchema();
    var m1 := Capacity(m.maxNamespaces, None, None);
    var m2 := m1.(maxClusterRoleBindings := m.maxClusterRoleBindings);
    var ms := [ZERO_CAPACITY, m1, m2, m];
    OptionalInt32Alone(s, ZERO_CAPACITY, 1, m.maxNamespaces);
    OptionalInt32Alone(s, m1, 2, m.maxClusterRoleBindings);
    OptionalInt32Alone(s, m2, 3, m.maxCRDs);
    CapacityIsStable();
    assert forall j | 0 <= j < 3 :: Decode(s, ms[j], CapacityParts(m)[j]) == Ok(ms[j + 1]);
    InterleavedIsRead(s, ms, CapacityParts(m), extras, 0);
  }

  function SuspensionParts(m: Suspension): seq<seq<byte>> {
    [DelimitedBytes(1, m.mode), DelimitedBytes(2, m.reason)]
  }

  lemma NewerSuspensionIsRead(m: Suspension, extras: Extras)
    requires Fits(SuspensionSchema(), extras, 2) && |Interleaved(SuspensionParts(m), extras)| <= MAX_INT
    ensures Decode(SuspensionSchema(), ZERO_SUSPENSION, Interleaved(SuspensionParts(m), extras)) == Ok(m)
  {
    hide Decode, Interleaved, DelimitedBytes, AllIgnored;
    var s, parts := SuspensionSchema(), SuspensionParts(m);
    var m1 := Suspension(m.mode, []);
    var ms := [ZERO_SUSPENSION, m1, m];
    PartWithin(parts, extras, 0, 0);
    PartWithin(parts, extras, 0, 1);
    DelimitedLength(1, m.mode);
    DelimitedLength(2, m.reason);
    PayloadAlone(s, ZERO_SUSPENSION, 1, m.mode, SetMode, m1);
    PayloadAlone(s, m1, 2, m.reason, SetReason, m);
    SuspensionIsStable();
    assert forall j | 0 <= j < 2 :: Decode(s, ms[j], parts[j]) == Ok(ms[j + 1]);
    InterleavedIsRead(s, ms, parts, extras, 0);
  }

  // ----------------------------------------------------------------------- quota

  predicate EntryIgnored(f: Field) {
    WellFormed(f) && NumberOf(f) != 1 && NumberOf(f) != 2
  }

  predicate AllEntryIgnored(fs: seq<Field>) {
    forall k | 0 <= k < |fs| :: EntryIgnored(fs[k])
  }

  /** The entry loop passes over unknown fields, whatever their numbers. */
  lemma EntryFieldIgnored(c: Codec<Quantity>, d: seq<byte>, post: nat, e: Entry, f: Field)
    requires EntryIgnored(f) && At(d, e.end, Bytes(f)) && e.end + |Bytes(f)| <= post
    ensures EntryLoop(c, d, post, e) == EntryLoop(c, d, post, e.(end := e.end + |Bytes(f)|))
  {
    hide ReadVarint, ReadExtent, SkipFrom;
    TagComesFirst(f);
    AtWithin(d, e.end, Bytes(f), f.tag);
    ReadAt(d, e.end, f.tag);
    PassField(d, e.end, f, 0);
    assert EntryStep(c, d, post, e) == Ok(e.(end := e.end + |Bytes(f)|));
  }

  lemma AtWithin(d: seq<byte>, i: nat, s: seq<byte>, t: seq<byte>)
    requires At(d, i, s) && At(s, 0, t)
    ensures At(d, i, t)
  {
    assert s == t + s[|t|..];
    AtConcat(d, i, t, s[|t|..]);
  }

  lemma {:induction false} EntryFieldsIgnored(c: Codec<Quantity>, d: seq<byte>, post: nat, e: Entry, fs: seq<Field>)
    requires AllEntryIgnored(fs) && At(d, e.end, AllBytes(fs)) && e.end + |AllBytes(fs)| <= post
    ensures EntryLoop(c, d, post, e) == EntryLoop(c, d, post, e.(end := e.end + |AllBytes(fs)|))
    decreases |fs|
  {
    hide EntryIgnored, EntryLoop, Bytes;
    if fs != [] {
      AtConcat(d, e.end, Bytes(fs[0]), AllBytes(fs[1..]));
      EntryFieldIgnored(c, d, post, e, fs[0]);
      EntryFieldsIgnored(c, d, post, e.(end := e.end + |Bytes(fs[0])|), fs[1..]);
    }
  }

  /** One entry of the map, with fields before, between and after key and value. */
  function EntryWith(c: Codec<Quantity>, key: Str, value: Quantity, extras: Extras): seq<byte>
    requires |extras| == 3
  {
    AllBytes(extras[0]) +
    (DelimitedBytes(1, key) + (AllBytes(extras[1]) + (DelimitedBytes(2, c.encode(value)) + AllBytes(extras[2]))))
  }

  lemma EntryWithParts(c: Codec<Quantity>, d: seq<byte>, i: nat, key: Str, value: Quantity, extras: Extras)
    requires |extras| == 3 && At(d, i, EntryWith(c, key, value, extras))
    ensures var a, k, b, v, e := |AllBytes(extras[0])|, |DelimitedBytes(1, key)|, |AllBytes(extras[1])|, |DelimitedBytes(2, c.encode(value))|, |AllBytes(extras[2])|;
            && At(d, i, AllBytes(extras[0])) && At(d, i + a, DelimitedBytes(1, key))
            && At(d, i + a + k, AllBytes(extras[1])) && At(d, i + a + k + b, DelimitedBytes(2, c.encode(value)))
            && At(d, i + a + k + b + v, AllBytes(extras[2]))
            && |EntryWith(c, key, value, extras)| == a + k + b + v + e
            && |key| < k && |c.encode(value)| < v
  {
    hide DelimitedBytes, AllBytes, At;
    var x0, x1, x2, k, v := AllBytes(extras[0]), AllBytes(extras[1]), AllBytes(extras[2]), DelimitedBytes(1, key), DelimitedBytes(2, c.encode(value));
    AtConcat(d, i, x0, k + (x1 + (v + x2)));
    AtConcat(d, i + |x0|, k, x1 + (v + x2));
    AtConcat(d, i + |x0| + |k|, x1, v + x2);
    AtConcat(d, i + |x0| + |k| + |x1|, v, x2);
    DelimitedLength(1, key);
    DelimitedLength(2, c.encode(value));
  }

  lemma NextEntryField(c: Codec<Quantity>, d: seq<byte>, post: nat, e: Entry, e': Entry)
    requires e.end < post && EntryStep(c, d, post, e) == Ok(e')
    ensures EntryLoop(c, d, post, e) == EntryLoop(c, d, post, e')
  {
  }

  lemma NewerEntryIsRead(c: Codec<Quantity>, d: seq<byte>, start: nat, key: Str, value: Quantity, extras: Extras)
    requires Lawful(c) && |extras| == 3 && forall k | 0 <= k < 3 :: AllEntryIgnored(extras[k])
    requires |EntryWith(c, key, value, extras)| <= MAX_INT && At(d, start, EntryWith(c, key, value, extras))
    ensures var post := start + |EntryWith(c, key, value, extras)|;
            EntryLoop(c, d, post, Entry([], c.zero, start)) == Ok(Entry(key, value, post))
  {
    hide DelimitedBytes, AllBytes, At, EntryStep, EntryLoop, AllEntryIgnored, EntryWith;
    EntryWithParts(c, d, start, key, value, extras);
    var post := start + |EntryWith(c, key, value, extras)|;
    var i1 := start + |AllBytes(extras[0])|;
    var i2 := i1 + |DelimitedBytes(1, key)|;
    var i3 := i2 + |AllBytes(extras[1])|;
    var i4 := i3 + |DelimitedBytes(2, c.encode(value))|;
    EntryFieldsIgnored(c, d, post, Entry([], c.zero, start), extras[0]);
    EntryKeyRead(c, d, i1, post, key);
    NextEntryField(c, d, post, Entry([], c.zero, i1), Entry(key, c.zero, i2));
    EntryFieldsIgnored(c, d, post, Entry(key, c.zero, i2), extras[1]);
    EntryValueRead(c, d, i3, post, key, value);
    NextEntryField(c, d, post, Entry(key, c.zero, i3), Entry(key, value, i4));
    EntryFieldsIgnored(c, d, post, Entry(key, value, i4), extras[2]);
    LoopEnds(c, d, post, Entry(key, value, post));
  }

  lemma LoopEnds(c: Codec<Quantity>, d: seq<byte>, post: nat, e: Entry)
    requires e.end == post
    ensures EntryLoop(c, d, post, e) == Ok(e)
  {
  }

  lemma EntryAlone(c: Codec<Quantity>, m: Quota, key: Str, value: Quantity, extras: Extras)
    requires Lawful(c) && |extras| == 3 && forall k | 0 <= k < 3 :: AllEntryIgnored(extras[k])
    requires |EntryWith(c, key, value, extras)| <= MAX_INT
    ensures Decode(QuotaSchema(c), m, DelimitedBytes(1, EntryWith(c, key, value, extras))) == Ok(Quota(m.hard[key := value]))
  {
    hide DelimitedBytes, AllEntryIgnored, EntryWith, EntryLoop, Step;
    var body := EntryWith(c, key, value, extras);
    var d := DelimitedBytes(1, body);
    Whole(d);
    DelimitedLength(1, body);
    var start := DelimitedStep(QuotaSchema(c), m, d, 0, 1, body);
    NewerEntryIsRead(c, d, start, key, value, extras);
    DecodeEnd(QuotaSchema(c), Quota(m.hard[key := value]), d);
  }

  /** The entries of a quota, each with its own extras. */
  function EntryParts(c: Codec<Quantity>, keys: seq<Str>, hard: map<Str, Quantity>, extras: seq<Extras>): (r: seq<seq<byte>>)
    requires |extras| == |keys| && (forall k | 0 <= k < |keys| :: keys[k] in hard && |extras[k]| == 3)
    ensures |r| == |keys|
    ensures forall k | 0 <= k < |keys| :: r[k] == DelimitedBytes(1, EntryWith(c, keys[k], hard[keys[k]], extras[k]))
  {
    seq(|keys|, k requires 0 <= k < |keys| => DelimitedBytes(1, EntryWith(c, keys[k], hard[keys[k]], extras[k])))
  }

  predicate EntriesFit(extras: seq<Extras>, n: nat) {
    |extras| == n && forall k | 0 <= k < n :: |extras[k]| == 3 && forall j | 0 <= j < 3 :: AllEntryIgnored(extras[k][j])
  }

  ghost function QuotaWith(c: Codec<Quantity>, m: Quota, extras: Extras, entries: seq<Extras>): seq<byte>
    requires EntriesFit(entries, |m.hard|) && |extras| == |m.hard| + 1
  {
    var keys := Listing(m.hard.Keys);
    ListingElements(m.hard.Keys);
    Interleaved(EntryParts(c, keys, m.hard, entries), extras)
  }

  lemma OneMoreKey(hard: map<Str, Quantity>, keys: seq<Str>, k: nat)
    requires k < |keys| && keys[k] in hard
    ensures Only(hard, keys[..k + 1]) == Only(hard, keys[..k])[keys[k] := hard[keys[k]]]
  {
    assert keys[..k + 1] == keys[..k] + [keys[k]];
  }

  /** The quota of the first k keys. */
  ghost function FirstOf(hard: map<Str, Quantity>, keys: seq<Str>, k: nat): Quota
    requires k <= |keys|
  {
    Quota(Only(hard, keys[..k]))
  }

  lemma EntryPartAlone(c: Codec<Quantity>, keys: seq<Str>, hard: map<Str, Quantity>, entries: seq<Extras>, k: nat)
    requires Lawful(c) && EntriesFit(entries, |keys|) && (forall k | 0 <= k < |keys| :: keys[k] in hard) && k < |keys|
    requires |EntryParts(c, keys, hard, entries)[k]| <= MAX_INT
    ensures Decode(QuotaSchema(c), FirstOf(hard, keys, k), EntryParts(c, keys, hard, entries)[k]) == Ok(FirstOf(hard, keys, k + 1))
  {
    hide Decode, DelimitedBytes, EntryWith, AllEntryIgnored, Only;
    DelimitedLength(1, EntryWith(c, keys[k], hard[keys[k]], entries[k]));
    EntryAlone(c, FirstOf(hard, keys, k), keys[k], hard[keys[k]], entries[k]);
    OneMoreKey(hard, keys, k);
  }

  lemma FirstAndLast(hard: map<Str, Quantity>, keys: seq<Str>)
    requires forall k :: k in keys <==> k in hard
    ensures FirstOf(hard, keys, 0) == ZERO_QUOTA && FirstOf(hard, keys, |keys|) == Quota(hard)
  {
    assert keys[..|keys|] == keys;
    assert Only(hard, keys) == hard;
  }

  lemma NewerEntriesAreRead(c: Codec<Quantity>, keys: seq<Str>, hard: map<Str, Quantity>, extras: Extras, entries: seq<Extras>)
    requires Lawful(c) && EntriesFit(entries, |keys|) && (forall k | 0 <= k < |keys| :: keys[k] in hard)
    requires Fits(QuotaSchema(c), extras, |keys|) && |Interleaved(EntryParts(c, keys, hard, entries), extras)| <= MAX_INT
    ensures Decode(QuotaSchema(c), FirstOf(hard, keys, 0), Interleaved(EntryParts(c, keys, hard, entries), extras)) ==
            Ok(FirstOf(hard, keys, |keys|))
  {
    hide Decode, Interleaved, DelimitedBytes, EntryWith, EntryParts, AllIgnored, AllEntryIgnored, FirstOf, QuotaSchema;
    var parts := EntryParts(c, keys, hard, entries);
    var ms := seq(|keys| + 1, k requires 0 <= k <= |keys| => FirstOf(hard, keys, k));
    forall j | 0 <= j < |parts| ensures Decode(QuotaSchema(c), ms[j], parts[j]) == Ok(ms[j + 1]) {
      PartWithin(parts, extras, 0, j);
      EntryPartAlone(c, keys, hard, entries, j);
    }
    QuotaIsStable(c);
    InterleavedIsRead(QuotaSchema(c), ms, parts, extras, 0);
  }

  lemma NewerQuotaIsRead(c: Codec<Quantity>, m: Quota, extras: Extras, entries: seq<Extras>)
    requires Lawful(c) && EntriesFit(entries, |m.hard|) && Fits(QuotaSchema(c), extras, |m.hard|)
    requires |QuotaWith(c, m, extras, entries)| <= MAX_INT
    ensures Decode(QuotaSchema(c), ZERO_QUOTA, QuotaWith(c, m, extras, entries)) == Ok(m)
  {
    hide Decode, Interleaved, EntryParts, AllIgnored, AllEntryIgnored, FirstOf, QuotaSchema;
    var keys := Listing(m.hard.Keys);
    ListingElements(m.hard.Keys);
    NewerEntriesAreRead(c, keys, m.hard, extras, entries);
    FirstAndLast(m.hard, keys);
  }

  // ------------------------------------------------------------------------ spec

  /** What a newer program has added to a spec, to the quota, suspension and capacity in
      it, and to the entries of the quota. */
  datatype SpecExtras = SpecExtras(spec: Extras, quota: Extras, entries: seq<Extras>, suspension: Extras, capacity: Extras)

  predicate SpecFits(c: Codecs, m: Spec, x: SpecExtras) {
    && Fits(SpecSchema(c), x.spec, 5)
    && Fits(QuotaSchema(c.quantity), x.quota, |m.quota.hard|)
    && EntriesFit(x.entries, |m.quota.hard|)
    && Fits(SuspensionSchema(), x.suspension, 2)
    && Fits(CapacitySchema(), x.capacity, 3)
  }

  function SuspensionWith(m: Suspension, extras: Extras): seq<byte>
    requires |extras| == 3
  {
    Interleaved(SuspensionParts(m), extras)
  }

  function CapacityWith(m: Capacity, extras: Extras): seq<byte>
    requires |extras| == 4
  {
    Interleaved(CapacityParts(m), extras)
  }

  ghost function SpecParts(c: Codecs, m: Spec, x: SpecExtras): seq<seq<byte>>
    requires SpecFits(c, m, x)
  {
    [ScalarBytes(1, AsUint64(m.id)),
     DelimitedBytes(2, QuotaWith(c.quantity, m.quota, x.quota, x.entries)),
     OptionalBytes(3, if m.suspension.None? then None else Some(SuspensionWith(m.suspension.value, x.suspension))),
     OptionalBytes(4, Encoded(m.credentialValidity, c.duration.encode)),
     OptionalBytes(5, if m.capacity.None? then None else Some(CapacityWith(m.capacity.value, x.capacity)))]
  }

  ghost function SpecWith(c: Codecs, m: Spec, x: SpecExtras): seq<byte>
    requires SpecFits(c, m, x)
  {
    Interleaved(SpecParts(c, m, x), x.spec)
  }

  lemma IdAlone(c: Codecs, m: Spec, id: int32)
    ensures Decode(SpecSchema(c), m, ScalarBytes(1, AsUint64(id))) == Ok(m.(id := id))
  {
    hide Decode, ScalarBytes;
    Int32Kept(id);
    ScalarAlone(SpecSchema(c), m, 1, AsUint64(id));
  }

  lemma QuotaAlone(c: Codecs, m: Spec, quota: Quota, extras: Extras, entries: seq<Extras>)
    requires AllLawful(c) && EntriesFit(entries, |quota.hard|) && Fits(QuotaSchema(c.quantity), extras, |quota.hard|)
    requires |QuotaWith(c.quantity, quota, extras, entries)| <= MAX_INT && m.quota == ZERO_QUOTA
    ensures Decode(SpecSchema(c), m, DelimitedBytes(2, QuotaWith(c.quantity, quota, extras, entries))) == Ok(m.(quota := quota))
  {
    hide Decode, DelimitedBytes, QuotaWith, AllIgnored, EntriesFit;
    NewerQuotaIsRead(c.quantity, quota, extras, entries);
    PayloadAlone(SpecSchema(c), m, 2, QuotaWith(c.quantity, quota, extras, entries),
                 (m: Spec, p: seq<byte>) => MergeQuota(c, m, p), m.(quota := quota));
  }

  lemma SuspensionAlone(c: Codecs, m: Spec, v: Option<Suspension>, extras: Extras)
    requires Fits(SuspensionSchema(), extras, 2) && m.suspension.None?
    requires v.Some? ==> |SuspensionWith(v.value, extras)| <= MAX_INT
    ensures Decode(SpecSchema(c), m, OptionalBytes(3, if v.None? then None else Some(SuspensionWith(v.value, extras)))) == Ok(m.(suspension := v))
  {
    hide Decode, OptionalBytes, Interleaved;
    if v.Some? { NewerSuspensionIsRead(v.value, extras); }
    OptionalAlone(SpecSchema(c), m, 3, if v.None? then None else Some(SuspensionWith(v.value, extras)),
                  (m: Spec, p: seq<byte>) => MergeSuspension(m, p), m.(suspension := v));
  }

  lemma ValidityAlone(c: Codecs, m: Spec, v: Option<Duration>)
    requires AllLawful(c) && m.credentialValidity.None? && (v.Some? ==> |c.duration.encode(v.value)| <= MAX_INT)
    ensures Decode(SpecSchema(c), m, OptionalBytes(4, Encoded(v, c.duration.encode))) == Ok(m.(credentialValidity := v))
  {
    hide Decode, OptionalBytes;
    OptionalAlone(SpecSchema(c), m, 4, Encoded(v, c.duration.encode),
                  (m: Spec, p: seq<byte>) => MergeValidity(c, m, p), m.(credentialValidity := v));
  }

  lemma CapacityAlone(c: Codecs, m: Spec, v: Option<Capacity>, extras: Extras)
    requires Fits(CapacitySchema(), extras, 3) && m.capacity.None?
    requires v.Some? ==> |CapacityWith(v.value, extras)| <= MAX_INT
    ensures Decode(SpecSchema(c), m, OptionalBytes(5, if v.None? then None else Some(CapacityWith(v.value, extras)))) == Ok(m.(capacity := v))
  {
    hide Decode, OptionalBytes, Interleaved;
    if v.Some? { NewerCapacityIsRead(v.value, extras); }
    OptionalAlone(SpecSchema(c), m, 5, if v.None? then None else Some(CapacityWith(v.value, extras)),
                  (m: Spec, p: seq<byte>) => MergeCapacity(m, p), m.(capacity := v));
  }

  /** The payloads are no longer than the whole. */
  lemma SpecPartLengths(c: Codecs, m: Spec, x: SpecExtras)
    requires SpecFits(c, m, x) && |SpecWith(c, m, x)| <= MAX_INT
    ensures |QuotaWith(c.quantity, m.quota, x.quota, x.entries)| <= MAX_INT
    ensures m.suspension.Some? ==> |SuspensionWith(m.suspension.value, x.suspension)| <= MAX_INT
    ensures m.credentialValidity.Some? ==> |c.duration.encode(m.credentialValidity.value)| <= MAX_INT
    ensures m.capacity.Some? ==> |CapacityWith(m.capacity.value, x.capacity)| <= MAX_INT
  {
    hide Interleaved, DelimitedBytes, OptionalBytes, ScalarBytes, QuotaWith, SuspensionWith, CapacityWith;
    var parts := SpecParts(c, m, x);
    PartWithin(parts, x.spec, 0, 1);
    PartWithin(parts, x.spec, 0, 2);
    PartWithin(parts, x.spec, 0, 3);
    PartWithin(parts, x.spec, 0, 4);
    DelimitedLength(2, QuotaWith(c.quantity, m.quota, x.quota, x.entries));
    OptionalLength(3, if m.suspension.None? then None else Some(SuspensionWith(m.suspension.value, x.suspension)));
    OptionalLength(4, Encoded(m.credentialValidity, c.duration.encode));
    OptionalLength(5, if m.capacity.None? then None else Some(CapacityWith(m.capacity.value, x.capacity)));
  }

  /** A spec with any number of unknown fields, at every depth, is read as the spec. */
  lemma NewerSpecIsReadAtEveryDepth(c: Codecs, m: Spec, x: SpecExtras)
    requires AllLawful(c) && SpecFits(c, m, x) && |SpecWith(c, m, x)| <= MAX_INT
    ensures Decode(SpecSchema(c), ZERO_SPEC, SpecWith(c, m, x)) == Ok(m)
  {
    hide Decode, Interleaved, AllIgnored, EntriesFit, DelimitedBytes, OptionalBytes, ScalarBytes, QuotaWith, SuspensionWith, CapacityWith;
    SpecPartLengths(c, m, x);
    var m1 := ZERO_SPEC.(id := m.id);
    var m2 := m1.(quota := m.quota);
    var m3 := m2.(suspension := m.suspension);
    var m4 := m3.(credentialValidity := m.credentialValidity);
    var ms, parts := [ZERO_SPEC, m1, m2, m3, m4, m], SpecParts(c, m, x);
    IdAlone(c, ZERO_SPEC, m.id);
    QuotaAlone(c, m1, m.quota, x.quota, x.entries);
    SuspensionAlone(c, m2, m.suspension, x.suspension);
    ValidityAlone(c, m3, m.credentialValidity);
    CapacityAlone(c, m4, m.capacity, x.capacity);
    assert forall j | 0 <= j < 5 :: Decode(SpecSchema(c), ms[j], parts[j]) == Ok(ms[j + 1]);
    SpecIsStable(c);
    InterleavedIsRead(SpecSchema(c), ms, parts, x.spec, 0);
  }

  // ------------------------------------------------------------- nothing added

  function Nothing(parts: nat): (r: Extras)
    ensures |r| == parts + 1 && forall k | 0 <= k <= parts :: r[k] == []
  {
    seq(parts + 1, _ => [])
  }

  lemma EmptyAround(s: seq<byte>)
    ensures [] + s == s && s + [] == s
  {
  }

  lemma NextPart(parts: seq<seq<byte>>, k: nat)
    requires k <= |parts|
    ensures Interleaved(parts, Nothing(|parts|), k) ==
            if k == |parts| then [] else parts[k] + Interleaved(parts, Nothing(|parts|), k + 1)
  {
    if k < |parts| { EmptyAround(parts[k] + Interleaved(parts, Nothing(|parts|), k + 1)); }
  }

  lemma EntryWithNothing(c: Codec<Quantity>, key: Str, value: Quantity)
    ensures EntryWith(c, key, value, Nothing(2)) == EntryBody(c, key, value)
  {
    hide DelimitedBytes;
    EmptyAround(DelimitedBytes(2, c.encode(value)));
    EmptyAround(EntryBody(c, key, value));
  }

  lemma {:induction false} EntriesWithNothing(c: Codec<Quantity>, keys: seq<Str>, hard: map<Str, Quantity>, k: nat)
    requires k <= |keys| && forall k | 0 <= k < |keys| :: keys[k] in hard
    ensures Interleaved(EntryParts(c, keys, hard, seq(|keys|, _ => Nothing(2))), Nothing(|keys|), k) == EncodeEntries(c, keys[k..], hard)
    decreases |keys| - k
  {
    hide DelimitedBytes, EntryWith, EntryBody, Interleaved;
    var parts := EntryParts(c, keys, hard, seq(|keys|, _ => Nothing(2)));
    NextPart(parts, k);
    if k < |keys| {
      EntryWithNothing(c, keys[k], hard[keys[k]]);
      EntriesWithNothing(c, keys, hard, k + 1);
      assert keys[k..][1..] == keys[k + 1..];
    }
  }

  lemma QuotaWithNothing(c: Codec<Quantity>, m: Quota)
    ensures QuotaWith(c, m, Nothing(|m.hard|), seq(|m.hard|, _ => Nothing(2))) == EncodeQuota(c, m)
  {
    hide EntryWith, Interleaved, EncodeEntries, EntryParts;
    var keys := Listing(m.hard.Keys);
    ListingElements(m.hard.Keys);
    EntriesWithNothing(c, keys, m.hard, 0);
    assert keys[0..] == keys;
  }

  lemma SuspensionWithNothing(m: Suspension)
    ensures SuspensionWith(m, Nothing(2)) == EncodeSuspension(m)
  {
    hide DelimitedBytes, Interleaved;
    var parts := SuspensionParts(m);
    NextPart(parts, 0);
    NextPart(parts, 1);
    NextPart(parts, 2);
    EmptyAround(DelimitedBytes(2, m.reason));
  }

  lemma CapacityWithNothing(m: Capacity)
    ensures CapacityWith(m, Nothing(3)) == EncodeCapacity(m)
  {
    hide OptionalInt32, Interleaved;
    var parts := CapacityParts(m);
    NextPart(parts, 0);
    NextPart(parts, 1);
    NextPart(parts, 2);
    NextPart(parts, 3);
    EmptyAround(OptionalInt32(3, m.maxCRDs));
  }

  function NothingAdded(m: Spec): SpecExtras {
    SpecExtras(Nothing(5), Nothing(|m.quota.hard|), seq(|m.quota.hard|, _ => Nothing(2)), Nothing(2), Nothing(3))
  }

  lemma NothingFits(c: Codecs, m: Spec)
    ensures SpecFits(c, m, NothingAdded(m))
  {
  }

  lemma FiveParts(parts: seq<seq<byte>>)
    requires |parts| == 5
    ensures Interleaved(parts, Nothing(5)) == parts[0] + (parts[1] + (parts[2] + (parts[3] + parts[4])))
  {
    hide Interleaved;
    NextPart(parts, 0);
    NextPart(parts, 1);
    NextPart(parts, 2);
    NextPart(parts, 3);
    NextPart(parts, 4);
    NextPart(parts, 5);
    EmptyAround(parts[4]);
  }

  /** With nothing added, it is what the program itself writes. */
  lemma SpecWithNothing(c: Codecs, m: Spec)
    ensures SpecFits(c, m, NothingAdded(m)) && SpecWith(c, m, NothingAdded(m)) == EncodeSpec(c, m)
  {
    hide SpecFits, Interleaved, Nothing, DelimitedBytes, OptionalBytes, ScalarBytes, QuotaWith, EncodeQuota, SuspensionWith, CapacityWith,
         EncodeSuspension, EncodeCapacity;
    NothingFits(c, m);
    QuotaWithNothing(c.quantity, m.quota);
    if m.suspension.Some? { SuspensionWithNothing(m.suspension.value); }
    if m.capacity.Some? { CapacityWithNothing(m.capacity.value); }
    FiveParts(SpecParts(c, m, NothingAdded(m)));
  }
}
