/** TenantQuota reads map entries past their end: the entry loop bounds its reads by
    the whole input. Where that makes unknown fields unsafe to insert, and where not. */
module EntryOverrun {
  import opened Common
  import opened Varint
  import opened WireFields
  import opened Message
  import opened SortedKeys
  import opened TenantMessages

  /** The field at index i, if it is a map entry, is read from bytes before k. */
  predicate ReadsBefore(c: Codec<Quantity>, d: seq<byte>, i: nat, k: nat) {
    var tag := ReadTag(d, i);
    tag.Ok? && tag.value.number == 1 ==>
      var x := ReadExtent(d, tag.value.next);
      x.Ok? && var e := EntryLoop(c, d, x.value.post, Entry([], c.zero, x.value.start));
      e.Ok? && e.value.end <= k
  }

  /** No entry between i and the boundary k was read from bytes after k. */
  predicate NoOverrun(c: Codec<Quantity>, m: Quota, d: seq<byte>, i: nat, k: nat)
    decreases |d| - i
  {
    i < k ==>
      && ReadsBefore(c, d, i, k)
      && var st := Step(QuotaSchema(c), m, d, i);
      st.Ok? && NoOverrun(c, st.value.m, d, st.value.next, k)
  }

  // ------------------------------------------------------- reads in a cut input

  lemma VarintCutShort(d: seq<byte>, i: nat, k: nat)
    requires k <= |d| && ReadVarint(d, i).Ok? && ReadVarint(d, i).value.next > k
    ensures ReadVarint(d[..k], i).Err?
  {
    if ReadVarint(d[..k], i).Ok? {
      var next := ReadVarint(d[..k], i).value.next;
      assert d[i..next] == d[..k][i..next];
      ReadVarintCopy(d[..k], i, d, i);
    }
  }

  lemma ExtentCut(d: seq<byte>, i: nat, k: nat)
    requires k <= |d| && ReadExtent(d, i).Ok?
    ensures if ReadExtent(d, i).value.post <= k then ReadExtent(d[..k], i) == ReadExtent(d, i)
            else ReadExtent(d[..k], i).Err?
  {
    hide ReadVarint;
    if ReadVarint(d, i).value.next <= k {
      ReadVarintCut(d, i, k);
    } else {
      VarintCutShort(d, i, k);
    }
  }

  /** One field of an entry, when the input is cut at k: the same if it was read from
      before k, refused if not. */
  lemma EntryStepCut(c: Codec<Quantity>, d: seq<byte>, k: nat, post: nat, e: Entry)
    requires post <= k <= |d| && EntryStep(c, d, post, e).Ok?
    ensures if EntryStep(c, d, post, e).value.end <= k then EntryStep(c, d[..k], post, e) == EntryStep(c, d, post, e)
            else EntryStep(c, d[..k], post, e).Err?
  {
    hide ReadVarint, ReadExtent, SkipFrom;
    var tag := ReadVarint(d, e.end).value;
    if FieldNumber(tag.value) in {1, 2} {
      if tag.next <= k {
        ReadVarintCut(d, e.end, k);
        ExtentCut(d, tag.next, k);
        var x := ReadExtent(d, tag.next).value;
        if x.post <= k { assert d[..k][x.start..x.post] == d[x.start..x.post]; }
      } else {
        VarintCutShort(d, e.end, k);
      }
    } else {
      SkipCut(d, e.end, k);
    }
  }

  lemma SkipCut(d: seq<byte>, i: nat, k: nat)
    requires k <= |d| && Skip(d, i).Ok? && Skip(d, i).value <= k
    ensures ReadVarint(d[..k], i) == ReadVarint(d, i) && Skip(d[..k], i) == Skip(d, i)
  {
    var next := Skip(d, i).value;
    assert d[..k][i..next] == d[i..next];
    SkipCopy(d, i, d[..k], i);
    ReadVarintCut(d, i, k);
  }

  lemma EntryEndGrows(c: Codec<Quantity>, d: seq<byte>, post: nat, e: Entry)
    requires EntryLoop(c, d, post, e).Ok?
    ensures EntryLoop(c, d, post, e).value.end >= e.end
    decreases |d| - e.end
  {
  }

  lemma {:induction false} EntryLoopCut(c: Codec<Quantity>, d: seq<byte>, k: nat, post: nat, e: Entry)
    requires post <= k <= |d| && EntryLoop(c, d, post, e).Ok? && e.end <= k
    ensures if EntryLoop(c, d, post, e).value.end <= k then EntryLoop(c, d[..k], post, e) == EntryLoop(c, d, post, e)
            else EntryLoop(c, d[..k], post, e).Err?
    decreases |d| - e.end
  {
    hide EntryStep;
    if e.end < post {
      EntryStepCut(c, d, k, post, e);
      var next := EntryStep(c, d, post, e).value;
      EntryEndGrows(c, d, post, next);
      if next.end <= k { EntryLoopCut(c, d, k, post, next); }
    }
  }

  lemma QuotaStepCut(c: Codec<Quantity>, m: Quota, d: seq<byte>, i: nat, k: nat)
    requires k <= |d| && Step(QuotaSchema(c), m, d, i).Ok? && Step(QuotaSchema(c), m, d, i).value.next <= k
    ensures if ReadsBefore(c, d, i, k) then Step(QuotaSchema(c), m, d[..k], i) == Step(QuotaSchema(c), m, d, i)
            else Step(QuotaSchema(c), m, d[..k], i).Err?
  {
    hide ReadVarint, ReadExtent, SkipFrom, EntryLoop;
    var tag := ReadTag(d, i).value;
    if tag.number == 1 {
      ReadVarintCut(d, i, k);
      ExtentCut(d, tag.next, k);
      var x := ReadExtent(d, tag.next).value;
      EntryLoopCut(c, d, k, x.post, Entry([], c.zero, x.start));
    } else {
      SkipCut(d, i, k);
    }
  }

  /** What stands before a boundary of a TenantQuota decodes on its own exactly when
      no entry before it was read past it. */
  lemma {:induction false} AloneIffNoOverrun(c: Codec<Quantity>, m: Quota, d: seq<byte>, i: nat, k: nat)
    requires k <= |d| && Boundary(QuotaSchema(c), m, d, i, k)
    ensures Decode(QuotaSchema(c), m, d[..k], i).Ok? <==> NoOverrun(c, m, d, i, k)
    decreases |d| - i
  {
    hide Step, ReadsBefore;
    BoundaryReached(QuotaSchema(c), m, d, i, k);
    if i < k {
      var st := Step(QuotaSchema(c), m, d, i).value;
      BoundaryReached(QuotaSchema(c), st.m, d, st.next, k);
      QuotaStepCut(c, m, d, i, k);
      AloneIffNoOverrun(c, st.m, d, st.next, k);
    }
  }

  /** Forward compatibility of TenantQuota, at every boundary that no entry before it
      was read past. */
  lemma UnknownFieldInQuota(c: Codec<Quantity>, m: Quota, d: seq<byte>, k: nat, f: Field)
    requires k <= |d| && Boundary(QuotaSchema(c), m, d, 0, k)
    requires NoOverrun(c, m, d, 0, k) && Ignored(QuotaSchema(c), f)
    ensures Decode(QuotaSchema(c), m, d[..k] + (Bytes(f) + d[k..])) == Decode(QuotaSchema(c), m, d)
  {
    hide Decode, Boundary, NoOverrun, Bytes;
    QuotaIsStable(c);
    AloneIffNoOverrun(c, m, d, 0, k);
    UnknownFieldIgnored(QuotaSchema(c), m, d[..k], f, d[k..]);
    assert d[..k] + d[k..] == d;
  }

  // ------------------------------------------------------------------ encodings

  /** An entry of an encoding is read up to its end and no further. */
  lemma EncodedEntryEnds(c: Codec<Quantity>, m: Quota, d: seq<byte>, i: nat, key: Str, value: Quantity, k: nat)
    requires Lawful(c) && |d| <= MAX_INT && At(d, i, DelimitedBytes(1, EntryBody(c, key, value)))
    requires i + |DelimitedBytes(1, EntryBody(c, key, value))| <= k
    ensures ReadsBefore(c, d, i, k)
    ensures Step(QuotaSchema(c), m, d, i) ==
            Ok(State(Quota(m.hard[key := value]), i + |DelimitedBytes(1, EntryBody(c, key, value))|))
  {
    hide EncodeVarint, ReadVarint, ReadTag, ReadExtent, EntryBody, EntryLoop, DelimitedBytes;
    var body := EntryBody(c, key, value);
    DelimitedLength(1, body);
    var start := DelimitedStep(QuotaSchema(c), m, d, i, 1, body);
    EntryRead(c, d, start, key, value);
    EntryExtent(d, i, body);
  }

  lemma EntryExtent(d: seq<byte>, i: nat, body: seq<byte>)
    requires |body| <= MAX_INT && At(d, i, DelimitedBytes(1, body))
    ensures var tag := ReadTag(d, i);
            && tag.Ok? && tag.value.number == 1
            && var end := i + |DelimitedBytes(1, body)|;
            ReadExtent(d, tag.value.next) == Ok(Extent(end - |body|, end))
  {
    hide EncodeVarint, ReadVarint, ReadTag, ReadExtent;
    AtConcat(d, i, Key(1, 2), EncodeVarint(|body|) + body);
    KeyRead(d, i, 1, 2);
    ExtentRead(d, i + |Key(1, 2)|, body);
  }

  lemma {:induction false} EncodedEntriesEnd(c: Codec<Quantity>, m: Quota, d: seq<byte>, i: nat, keys: seq<Str>, hard: map<Str, Quantity>, k: nat)
    requires Lawful(c) && |d| <= MAX_INT && forall x | x in keys :: x in hard
    requires i + |EncodeEntries(c, keys, hard)| == |d| && At(d, i, EncodeEntries(c, keys, hard))
    requires k <= |d| && Boundary(QuotaSchema(c), m, d, i, k)
    ensures NoOverrun(c, m, d, i, k)
    decreases |keys|
  {
    hide DelimitedBytes, EntryBody, Step, ReadsBefore;
    if i < k {
      var key, rest := keys[0], keys[1..];
      var entry := DelimitedBytes(1, EntryBody(c, key, hard[key]));
      AtConcat(d, i, entry, EncodeEntries(c, rest, hard));
      EncodedEntryEnds(c, m, d, i, key, hard[key], i + |entry|);
      var next := Quota(m.hard[key := hard[key]]);
      BoundaryReached(QuotaSchema(c), next, d, i + |entry|, k);
      EncodedEntryEnds(c, m, d, i, key, hard[key], k);
      EncodedEntriesEnd(c, next, d, i + |entry|, rest, hard, k);
    }
  }

  /** In what the program itself writes, no entry is read past any boundary. */
  lemma EncodingsDoNotOverrun(c: Codec<Quantity>, m: Quota, k: nat)
    requires Lawful(c) && k <= |EncodeQuota(c, m)| <= MAX_INT
    requires Boundary(QuotaSchema(c), ZERO_QUOTA, EncodeQuota(c, m), 0, k)
    ensures NoOverrun(c, ZERO_QUOTA, EncodeQuota(c, m), 0, k)
  {
    hide EncodeEntries, Boundary, NoOverrun;
    ListingElements(m.hard.Keys);
    Whole(EncodeQuota(c, m));
    EncodedEntriesEnd(c, ZERO_QUOTA, EncodeQuota(c, m), 0, Listing(m.hard.Keys), m.hard, k);
  }

  /** So a quota written by a newer program, with one more field anywhere between its
      entries, is read as the quota without it. */
  lemma NewerQuotaIsRead(c: Codec<Quantity>, m: Quota, k: nat, f: Field)
    requires Lawful(c) && k <= |EncodeQuota(c, m)| <= MAX_INT
    requires Boundary(QuotaSchema(c), ZERO_QUOTA, EncodeQuota(c, m), 0, k)
    requires WellFormed(f) && NumberOf(f) > 1
    ensures var d := EncodeQuota(c, m);
            Decode(QuotaSchema(c), ZERO_QUOTA, d[..k] + (Bytes(f) + d[k..])) == Ok(m)
  {
    hide Decode, Boundary, NoOverrun, Bytes, WellFormed, EncodeQuota;
    EncodingsDoNotOverrun(c, m, k);
    QuotaRoundTrip(c, m);
    UnknownFieldInQuota(c, ZERO_QUOTA, EncodeQuota(c, m), k, f);
  }

  // -------------------------------------------------------------------- overruns

  /** It is not so at the other boundaries: here an entry of two bytes announces a key of
      one byte, which it takes from the field after it. Another field there is
      another key. */
  lemma OverrunReadsTheNextField(c: Codec<Quantity>)
    ensures var d, f := [10, 2, 10, 1, 16, 0], VarintField([24], [0]);
            && Boundary(QuotaSchema(c), ZERO_QUOTA, d, 0, 4) && !NoOverrun(c, ZERO_QUOTA, d, 0, 4)
            && Ignored(QuotaSchema(c), f)
            && Decode(QuotaSchema(c), ZERO_QUOTA, d) == Ok(Quota(map[[16] := c.zero]))
            && Decode(QuotaSchema(c), ZERO_QUOTA, d[..4] + (Bytes(f) + d[4..])) == Ok(Quota(map[[24] := c.zero]))
  {
    hide Decode, NoOverrun, Boundary, Step, ReadVarint, ReadsBefore;
    var d: seq<byte> := [10, 2, 10, 1, 16, 0];
    var e: seq<byte> := [10, 2, 10, 1, 24, 0, 16, 0];
    assert d[..4] + (Bytes(VarintField([24], [0])) + d[4..]) == e;
    OverrunDecoded(c, d);
    OverrunDecoded(c, e);
    SmallFieldIgnored(c);
  }

  lemma SmallFieldIgnored(c: Codec<Quantity>)
    ensures Ignored(QuotaSchema(c), VarintField([24], [0]))
  {
  }

  lemma OverrunDecoded(c: Codec<Quantity>, d: seq<byte>)
    requires d == [10, 2, 10, 1, 16, 0] || d == [10, 2, 10, 1, 24, 0, 16, 0]
    ensures Decode(QuotaSchema(c), ZERO_QUOTA, d) == Ok(Quota(map[[d[4]] := c.zero]))
    ensures Boundary(QuotaSchema(c), ZERO_QUOTA, d, 0, 4) && !NoOverrun(c, ZERO_QUOTA, d, 0, 4)
  {
    hide Step, ReadVarint, ReadsBefore;
    var m := Quota(map[[d[4]] := c.zero]);
    OverrunningEntry(c, d);
    TwoByteField(c, m, d, 4);
    if |d| == 8 { TwoByteField(c, m, d, 6); }
    DecodeEnd(QuotaSchema(c), m, d);
    assert Decode(QuotaSchema(c), m, d, 6) == Ok(m);
    assert Decode(QuotaSchema(c), m, d, 4) == Ok(m);
  }

  lemma TwoByteField(c: Codec<Quantity>, m: Quota, d: seq<byte>, i: nat)
    requires i + 1 < |d| && d[i] in {16, 24} && d[i + 1] == 0
    ensures Step(QuotaSchema(c), m, d, i) == Ok(State(m, i + 2))
  {
  }

  lemma OverrunningEntry(c: Codec<Quantity>, d: seq<byte>)
    requires |d| > 5 && d[..4] == [10, 2, 10, 1]
    ensures EntryLoop(c, d, 4, Entry([], c.zero, 2)) == Ok(Entry([d[4]], c.zero, 5))
    ensures Step(QuotaSchema(c), ZERO_QUOTA, d, 0) == Ok(State(Quota(map[[d[4]] := c.zero]), 4))
    ensures !ReadsBefore(c, d, 0, 4)
  {
    assert d[0] == d[..4][0] && d[1] == d[..4][1] && d[2] == d[..4][2] && d[3] == d[..4][3];
    assert ReadExtent(d, 3) == Ok(Extent(4, 5));
    assert d[4..5] == [d[4]];
    assert EntryStep(c, d, 4, Entry([], c.zero, 2)) == Ok(Entry([d[4]], c.zero, 5));
    assert ReadExtent(d, 1) == Ok(Extent(2, 4));
  }

  /** Nor is every overrun felt: where the quantity's decoder makes the same of any
      one byte, an entry that takes one from the field after it does no harm, whatever
      is inserted there. */
  lemma OverrunMayBeHarmless(c: Codec<Quantity>, f: Field, q: seq<byte>)
    requires forall b: byte :: c.merge(c.zero, [b]) == Ok(c.zero)
    requires Ignored(QuotaSchema(c), f) && q != []
    ensures var d := [10, 2, 18, 1] + q;
            && Boundary(QuotaSchema(c), ZERO_QUOTA, d, 0, 4) && !NoOverrun(c, ZERO_QUOTA, d, 0, 4)
            && Decode(QuotaSchema(c), ZERO_QUOTA, d[..4] + (Bytes(f) + d[4..])) == Decode(QuotaSchema(c), ZERO_QUOTA, d)
  {
    hide Decode, Step, ReadVarint, ReadsBefore, Ignored, Bytes;
    var m := Quota(map[[] := c.zero]);
    var d := [10, 2, 18, 1] + q;
    assert d[..4] == [10, 2, 18, 1] && d[4..] == q;
    OverrunningValue(c, q);
    FieldIsNotEmpty(c, f);
    OverrunningValue(c, Bytes(f) + q);
    QuotaIsStable(c);
    DecodeEnd(QuotaSchema(c), m, []);
    UnknownFieldIgnored(QuotaSchema(c), m, [], f, q);
    assert [] + q == q && [] + (Bytes(f) + q) == Bytes(f) + q;
  }

  lemma FieldIsNotEmpty(c: Codec<Quantity>, f: Field)
    requires Ignored(QuotaSchema(c), f)
    ensures Bytes(f) != []
  {
    TagComesFirst(f);
  }

  lemma OverrunningValue(c: Codec<Quantity>, q: seq<byte>)
    requires (forall b: byte :: c.merge(c.zero, [b]) == Ok(c.zero)) && q != []
    ensures var d, m := [10, 2, 18, 1] + q, Quota(map[[] := c.zero]);
            && Step(QuotaSchema(c), ZERO_QUOTA, d, 0) == Ok(State(m, 4))
            && Boundary(QuotaSchema(c), ZERO_QUOTA, d, 0, 4) && !NoOverrun(c, ZERO_QUOTA, d, 0, 4)
            && Decode(QuotaSchema(c), ZERO_QUOTA, d) == Decode(QuotaSchema(c), m, q)
  {
    hide ReadVarint, SkipFrom;
    var d, m := [10, 2, 18, 1] + q, Quota(map[[] := c.zero]);
    ShortEntry(c, d);
    QuotaIsStable(c);
    DecodeMoved(QuotaSchema(c), m, d, 4, q, 0);
  }

  lemma ShortEntry(c: Codec<Quantity>, d: seq<byte>)
    requires (forall b: byte :: c.merge(c.zero, [b]) == Ok(c.zero)) && |d| > 4 && d[..4] == [10, 2, 18, 1]
    ensures Step(QuotaSchema(c), ZERO_QUOTA, d, 0) == Ok(State(Quota(map[[] := c.zero]), 4))
    ensures !ReadsBefore(c, d, 0, 4)
  {
    assert d[0] == d[..4][0] && d[1] == d[..4][1] && d[2] == d[..4][2] && d[3] == d[..4][3];
    assert ReadExtent(d, 3) == Ok(Extent(4, 5));
    assert d[4..5] == [d[4]];
    assert EntryStep(c, d, 4, Entry([], c.zero, 2)) == Ok(Entry([], c.zero, 5));
    assert EntryLoop(c, d, 4, Entry([], c.zero, 2)) == Ok(Entry([], c.zero, 5));
    assert ReadExtent(d, 1) == Ok(Extent(2, 4));
  }
}
