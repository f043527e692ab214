/** Which of the fields that skipGenerated passes over are fields of the Protocol
    Buffers "Message Structure" and "Groups" sections: those whose field numbers are
    legal and whose groups are closed by their own number. The program checks
    neither. */
module Groups {
  import opened Common
  import opened Varint
  import opened WireFields

  function TagNumber(tag: seq<byte>): nat
    requires IsVarint(tag)
  {
    ValueOf(tag) / 8
  }

  predicate Legal(tag: seq<byte>)
    requires IsVarint(tag)
  {
    1 <= TagNumber(tag) < 0x2000_0000
  }

  /** Legal numbers, and each group closed by the number that opened it. */
  predicate Matched(f: Field)
    requires WellFormed(f)
  {
    Legal(f.tag) &&
    match f
    case GroupField(tag, body, endTag) => TagNumber(endTag) == TagNumber(tag) && AllMatched(body)
    case _ => true
  }

  predicate AllMatched(fs: seq<Field>)
    requires AllWellFormed(fs)
  {
    fs == [] || (Matched(fs[0]) && AllMatched(fs[1..]))
  }

  // --------------------------------------------------------- the parse is unique

  lemma SameVarint(d: seq<byte>, i: nat, s: seq<byte>, t: seq<byte>)
    requires IsVarint(s) && IsVarint(t) && At(d, i, s) && At(d, i, t)
    ensures s == t
  {
    ReadAt(d, i, s);
    ReadAt(d, i, t);
  }

  /** What comes after the tag. */
  function Rest(f: Field): seq<byte> {
    match f
    case VarintField(_, value) => value
    case Fixed64Field(_, value) => value
    case DelimitedField(_, length, payload) => length + payload
    case GroupField(_, body, endTag) => AllBytes(body) + endTag
    case Fixed32Field(_, value) => value
  }

  lemma TagAndRest(d: seq<byte>, i: nat, f: Field)
    requires WellFormed(f) && At(d, i, Bytes(f))
    ensures Bytes(f) == f.tag + Rest(f)
    ensures IsVarint(f.tag) && At(d, i, f.tag) && At(d, i + |f.tag|, Rest(f))
    ensures ValueOf(f.tag) % 8 != 4
  {
    hide IsVarint, ValueOf, At;
    AtConcat(d, i, f.tag, Rest(f));
  }

  lemma SameLength(d: seq<byte>, i: nat, s: seq<byte>, t: seq<byte>)
    requires At(d, i, s) && At(d, i, t) && |s| == |t|
    ensures s == t
  {
  }

  lemma SamePayload(d: seq<byte>, i: nat, f: Field, g: Field)
    requires f.DelimitedField? && g.DelimitedField? && WellFormed(f) && WellFormed(g)
    requires At(d, i, f.length + f.payload) && At(d, i, g.length + g.payload)
    ensures f.length == g.length && f.payload == g.payload
  {
    hide IsVarint, ValueOf, At;
    AtConcat(d, i, f.length, f.payload);
    AtConcat(d, i, g.length, g.payload);
    SameVarint(d, i, f.length, g.length);
    SameLength(d, i + |f.length|, f.payload, g.payload);
  }

  /** The wire type says which kind of field it is. */
  lemma SameKind(f: Field, g: Field)
    requires WellFormed(f) && WellFormed(g) && f.tag == g.tag
    ensures f.VarintField? == g.VarintField? && f.Fixed64Field? == g.Fixed64Field? && f.DelimitedField? == g.DelimitedField?
    ensures f.GroupField? == g.GroupField? && f.Fixed32Field? == g.Fixed32Field?
  {
    hide IsVarint, ValueOf;
  }

  /** At one place there is at most one field. */
  lemma {:induction false} ParseIsUnique(d: seq<byte>, i: nat, f: Field, g: Field)
    requires WellFormed(f) && WellFormed(g) && At(d, i, Bytes(f)) && At(d, i, Bytes(g))
    ensures f == g
    decreases f
  {
    hide IsVarint, ValueOf, At;
    TagAndRest(d, i, f);
    TagAndRest(d, i, g);
    SameVarint(d, i, f.tag, g.tag);
    SameKind(f, g);
    var rest := i + |f.tag|;
    match f
    case VarintField(_, value) =>
      SameVarint(d, rest, value, g.value);
    case Fixed64Field(_, value) =>
      SameLength(d, rest, value, g.value);
    case DelimitedField(_, _, _) =>
      SamePayload(d, rest, f, g);
    case GroupField(_, body, endTag) =>
      BodyIsUnique(d, rest, body, endTag, g.body, g.endTag);
    case Fixed32Field(_, value) =>
      SameLength(d, rest, value, g.value);
  }

  lemma {:induction false} BodyIsUnique(d: seq<byte>, i: nat, fs: seq<Field>, e: seq<byte>, gs: seq<Field>, e': seq<byte>)
    requires AllWellFormed(fs) && IsTag(e, 4) && At(d, i, AllBytes(fs) + e)
    requires AllWellFormed(gs) && IsTag(e', 4) && At(d, i, AllBytes(gs) + e')
    ensures fs == gs && e == e'
    decreases fs
  {
    hide IsVarint, ValueOf, WellFormed, Bytes;
    AtConcat(d, i, AllBytes(fs), e);
    AtConcat(d, i, AllBytes(gs), e');
    if fs == [] && gs == [] {
      SameVarint(d, i, e, e');
    } else if fs == [] {
      NoFieldAtEndTag(d, i, e, gs);
    } else if gs == [] {
      NoFieldAtEndTag(d, i, e', fs);
    } else {
      FirstOfBody(d, i, fs, e);
      FirstOfBody(d, i, gs, e');
      ParseIsUnique(d, i, fs[0], gs[0]);
      BodyIsUnique(d, i + |Bytes(fs[0])|, fs[1..], e, gs[1..], e');
      assert fs == [fs[0]] + fs[1..] && gs == [gs[0]] + gs[1..];
    }
  }

  lemma FirstOfBody(d: seq<byte>, i: nat, fs: seq<Field>, e: seq<byte>)
    requires fs != [] && AllWellFormed(fs) && At(d, i, AllBytes(fs) + e)
    ensures At(d, i, Bytes(fs[0])) && At(d, i + |Bytes(fs[0])|, AllBytes(fs[1..]) + e)
  {
    hide WellFormed, Bytes;
    Associate(Bytes(fs[0]), AllBytes(fs[1..]), e);
    AtConcat(d, i, Bytes(fs[0]), AllBytes(fs[1..]) + e);
  }

  lemma NoFieldAtEndTag(d: seq<byte>, i: nat, e: seq<byte>, gs: seq<Field>)
    requires IsTag(e, 4) && At(d, i, e)
    requires AllWellFormed(gs) && At(d, i, AllBytes(gs))
    ensures gs == []
  {
    if gs != [] {
      AtConcat(d, i, Bytes(gs[0]), AllBytes(gs[1..]));
      TagAndRest(d, i, gs[0]);
      SameVarint(d, i, e, gs[0].tag);
      assert false;
    }
  }

  // ---------------------------------------------------- a scan with the open groups

  /** Skips one field as the standard has it, with the numbers of the open groups where
      skipGenerated has their count. */
  function SkipMatched(d: seq<byte>, i: nat, open: seq<nat> := []): (r: Option<nat>)
    ensures r.Some? ==> i < r.value <= |d|
    decreases |d| - i, 0
  {
    var read := ReadVarint(d, i);
    if read.Err? then None
    else
      var number, wireType, next := read.value.value / 8, read.value.value % 8, read.value.next;
      if !(1 <= number < 0x2000_0000) then None
      else if wireType == 3 then SkipMatched(d, next, open + [number])
      else if wireType == 4 then
        if open == [] || open[|open| - 1] != number then None
        else Closed(d, next, open[..|open| - 1])
      else
        var p := ScanPayload(wireType, d, next, 0);
        if p.Err? || p.value.next > |d| then None else Closed(d, p.value.next, open)
  }

  /** Done at the top level; otherwise on with the innermost group. */
  function Closed(d: seq<byte>, i: nat, open: seq<nat>): (r: Option<nat>)
    requires i <= |d|
    ensures r.Some? ==> i <= r.value <= |d|
    decreases |d| - i, 1
  {
    if open == [] then Some(i) else SkipMatched(d, i, open)
  }

  lemma ScanTag(d: seq<byte>, i: nat, tag: seq<byte>, open: seq<nat>)
    requires IsVarint(tag) && At(d, i, tag)
    ensures ReadVarint(d, i) == Ok(Varint(ValueOf(tag), i + |tag|))
    ensures !Legal(tag) ==> SkipMatched(d, i, open) == None
  {
    ReadAt(d, i, tag);
  }

  lemma ScanSimple(d: seq<byte>, i: nat, f: Field, open: seq<nat>)
    requires WellFormed(f) && !f.GroupField? && At(d, i, Bytes(f))
    ensures SkipMatched(d, i, open) == if Matched(f) then Closed(d, i + |Bytes(f)|, open) else None
  {
    hide ReadVarint;
    TagAndRest(d, i, f);
    ScanTag(d, i, f.tag, open);
    PayloadScanned(d, i + |f.tag|, f);
  }

  lemma PayloadScanned(d: seq<byte>, i: nat, f: Field)
    requires WellFormed(f) && !f.GroupField? && At(d, i, Rest(f))
    ensures ScanPayload(ValueOf(f.tag) % 8, d, i, 0) == Ok(Progress(i + |Rest(f)|, 0))
    ensures ValueOf(f.tag) % 8 != 3 && ValueOf(f.tag) % 8 != 4
  {
    hide ReadVarint;
    match f
    case VarintField(_, value) => ReadAt(d, i, value);
    case DelimitedField(_, length, payload) =>
      AtConcat(d, i, length, payload);
      ReadAt(d, i, length);
    case Fixed64Field(_, _) =>
    case Fixed32Field(_, _) =>
  }

  /** The scan passes over a matched field, and over no other. */
  lemma {:induction false} FieldScanned(d: seq<byte>, i: nat, f: Field, open: seq<nat>)
    requires WellFormed(f) && At(d, i, Bytes(f))
    ensures SkipMatched(d, i, open) == if Matched(f) then Closed(d, i + |Bytes(f)|, open) else None
    decreases f
  {
    hide ReadVarint, SkipMatched;
    match f
    case GroupField(tag, body, endTag) =>
      TagAndRest(d, i, f);
      AtConcat(d, i + |tag|, AllBytes(body), endTag);
      ScanTag(d, i, tag, open);
      if Legal(tag) {
        GroupOpened(d, i, tag, open);
        BodyScanned(d, i + |tag|, body, open + [TagNumber(tag)]);
        GroupClosed(d, i + |tag| + |AllBytes(body)|, endTag, open, tag);
      }
    case _ =>
      ScanSimple(d, i, f, open);
  }

  lemma GroupOpened(d: seq<byte>, i: nat, tag: seq<byte>, open: seq<nat>)
    requires IsTag(tag, 3) && Legal(tag) && At(d, i, tag)
    ensures SkipMatched(d, i, open) == SkipMatched(d, i + |tag|, open + [TagNumber(tag)])
  {
    hide ReadVarint;
    ScanTag(d, i, tag, open);
  }

  lemma GroupClosed(d: seq<byte>, i: nat, endTag: seq<byte>, open: seq<nat>, tag: seq<byte>)
    requires IsTag(endTag, 4) && At(d, i, endTag) && IsVarint(tag) && Legal(tag)
    ensures SkipMatched(d, i, open + [TagNumber(tag)]) ==
            if TagNumber(endTag) == TagNumber(tag) then Closed(d, i + |endTag|, open) else None
  {
    hide ReadVarint;
    var inner := open + [TagNumber(tag)];
    assert inner[..|inner| - 1] == open;
    ScanTag(d, i, endTag, inner);
  }

  lemma {:induction false} BodyScanned(d: seq<byte>, i: nat, fs: seq<Field>, open: seq<nat>)
    requires open != [] && AllWellFormed(fs) && At(d, i, AllBytes(fs))
    ensures SkipMatched(d, i, open) == if AllMatched(fs) then SkipMatched(d, i + |AllBytes(fs)|, open) else None
    decreases fs
  {
    hide SkipMatched, WellFormed, Bytes, Matched;
    if fs != [] {
      AtConcat(d, i, Bytes(fs[0]), AllBytes(fs[1..]));
      FieldScanned(d, i, fs[0], open);
      BodyScanned(d, i + |Bytes(fs[0])|, fs[1..], open);
    }
  }

  /** It is the scan of skipGenerated, which it refuses to follow now and then. */
  lemma {:induction false} MatchedIsSkipped(d: seq<byte>, i: nat, open: seq<nat>)
    ensures SkipMatched(d, i, open).Some? ==> SkipFrom(d, i, |open|) == Ok(SkipMatched(d, i, open).value)
    decreases |d| - i
  {
    hide ReadVarint;
    var read := ReadVarint(d, i);
    if read.Ok? {
      var wireType, next := read.value.value % 8, read.value.next;
      if wireType == 3 {
        MatchedIsSkipped(d, next, open + [read.value.value / 8]);
      } else if wireType == 4 {
        if open != [] { MatchedIsSkipped(d, next, open[..|open| - 1]); }
      } else {
        var p := ScanPayload(wireType, d, next, 0);
        DepthUnchanged(wireType, d, next, |open|);
        if p.Ok? && p.value.next <= |d| { MatchedIsSkipped(d, p.value.next, open); }
      }
    }
  }

  lemma DepthUnchanged(wireType: nat, d: seq<byte>, i: nat, depth: nat)
    requires wireType != 3 && wireType != 4
    ensures var p := ScanPayload(wireType, d, i, 0);
            ScanPayload(wireType, d, i, depth) == if p.Ok? then Ok(Progress(p.value.next, depth)) else p
  {
    hide ReadVarint;
  }

  /** The bytes from i to j are one field of the standard exactly when the scan with the
      open groups ends there. */
  lemma StandardIffScanned(d: seq<byte>, i: nat, j: nat)
    requires i <= j <= |d|
    ensures (exists f :: WellFormed(f) && Matched(f) && Bytes(f) == d[i..j]) <==> SkipMatched(d, i) == Some(j)
  {
    hide WellFormed, Bytes, Matched, SkipFrom, SkipMatched;
    if SkipMatched(d, i) == Some(j) {
      MatchedIsSkipped(d, i, []);
      SkipIffField(d, i, j);
      var f :| WellFormed(f) && Bytes(f) == d[i..j];
      FieldScanned(d, i, f, []);
    }
    if f :| WellFormed(f) && Matched(f) && Bytes(f) == d[i..j] {
      FieldScanned(d, i, f, []);
    }
  }

  // ------------------------------------------------------- against the standard

  /** The bytes from i to j are one field of the standard exactly when skipGenerated
      passes over them and what it passed over, which parses in one way only, is
      matched. */
  lemma StandardIffMatched(d: seq<byte>, i: nat, j: nat)
    requires i <= j <= |d|
    ensures (exists f :: WellFormed(f) && Matched(f) && Bytes(f) == d[i..j]) <==>
            Skip(d, i) == Ok(j) && forall f | WellFormed(f) && Bytes(f) == d[i..j] :: Matched(f)
  {
    hide WellFormed, Bytes, Matched, SkipFrom;
    SkipIffField(d, i, j);
    if f :| WellFormed(f) && Matched(f) && Bytes(f) == d[i..j] {
      forall g | WellFormed(g) && Bytes(g) == d[i..j] ensures Matched(g) {
        ParseIsUnique(d, i, f, g);
      }
    }
  }

  /** A field is skipped the same whether it is matched or not: here the end of group
      2 closes group 1. */
  lemma MismatchedGroupIsSkipped()
    ensures Skip([11, 20], 0) == Ok(2)
    ensures !exists f :: WellFormed(f) && Matched(f) && Bytes(f) == [11, 20]
  {
    hide Bytes, SkipFrom, Matched, WellFormed;
    var d: seq<byte> := [11, 20];
    var group := GroupField([11], [], [20]);
    MismatchedGroup(d);
    SkipIffField(d, 0, 2);
    forall f | WellFormed(f) && Bytes(f) == d ensures !Matched(f) {
      ParseIsUnique(d, 0, f, group);
    }
  }

  lemma MismatchedGroup(d: seq<byte>)
    requires d == [11, 20]
    ensures var group := GroupField([11], [], [20]);
            WellFormed(group) && !Matched(group) && Bytes(group) == d && d[0..2] == d && At(d, 0, d)
  {
    assert ReadVarint([11], 0) == Ok(Varint(11, 1)) && ReadVarint([20], 0) == Ok(Varint(20, 1));
  }
}
