/** What the decoding loop accepts, and what it makes of it, said without a cursor: the
    input is a sequence of well-formed fields, and each does its part in turn. */
module Acceptance {
  import opened Common
  import opened Varint
  import opened WireFields
  import opened Message

  /** What one field does to a message: a known scalar has to be a varint, a known payload
      delimited, and an unknown field can be anything. */
  function Apply<M>(s: Schema<M>, m: M, f: Field): Option<M>
    requires WellFormed(f)
  {
    var number := NumberOf(f);
    if number <= 0 then None
    else
      match s(number)
      case Scalar(store) => if f.VarintField? then Some(store(m, ValueOf(f.value))) else None
      case Delimited(merge) =>
        if f.DelimitedField? && merge(m, f.payload, 0, |f.payload|).Ok?
        then Some(merge(m, f.payload, 0, |f.payload|).value)
        else None
      case Unknown => Some(m)
  }

  function ApplyAll<M>(s: Schema<M>, m: M, fs: seq<Field>): Option<M>
    requires AllWellFormed(fs)
  {
    if fs == [] then Some(m)
    else
      match Apply(s, m, fs[0])
      case None => None
      case Some(next) => ApplyAll(s, next, fs[1..])
  }

  // ------------------------------------------------------------------- one field

  /** Where no field looks beyond its payload, nor at where it stands, the payload is
      all there is to a field. */
  lemma PayloadIsAll<M(!new)>(s: Schema<M>, m: M, d: seq<byte>, number: int, start: nat, post: nat)
    requires Stable(s) && Local(s) && s(number).Delimited? && start <= post <= |d|
    ensures s(number).merge(m, d, start, post) == s(number).merge(m, d[start..post], 0, post - start)
  {
    var cut, payload := d[..post], d[start..post];
    assert LocalAt(s(number), m, d, post, start, post);
    assert cut[start..] == payload;
    assert EndsWith(cut, start, payload);
    assert MovesAt(s(number), m, cut, start, payload, 0, post - start);
  }

  lemma TagRead(d: seq<byte>, i: nat, f: Field)
    requires WellFormed(f) && At(d, i, Bytes(f))
    ensures ReadVarint(d, i) == Ok(Varint(ValueOf(f.tag), i + |f.tag|)) && IsVarint(f.tag)
    ensures ValueOf(f.tag) % 8 == WireType(f)
    ensures At(d, i + |f.tag|, AfterTag(f)) && |Bytes(f)| == |f.tag| + |AfterTag(f)|
  {
    hide ReadVarint;
    AtConcat(d, i, f.tag, AfterTag(f));
    ReadAt(d, i, f.tag);
  }

  function WireType(f: Field): nat {
    match f
    case VarintField(_, _) => 0
    case Fixed64Field(_, _) => 1
    case DelimitedField(_, _, _) => 2
    case GroupField(_, _, _) => 3
    case Fixed32Field(_, _) => 5
  }

  function AfterTag(f: Field): seq<byte> {
    match f
    case VarintField(_, value) => value
    case Fixed64Field(_, value) => value
    case DelimitedField(_, length, payload) => length + payload
    case GroupField(_, body, endTag) => AllBytes(body) + endTag
    case Fixed32Field(_, value) => value
  }

  lemma LengthRead(d: seq<byte>, i: nat, length: seq<byte>, payload: seq<byte>)
    requires IsVarint(length) && Signed(ValueOf(length), W64) == |payload| && At(d, i, length + payload)
    ensures var start := i + |length|;
            ReadExtent(d, i) == Ok(Extent(start, start + |payload|)) && d[start..start + |payload|] == payload
  {
    hide ReadVarint;
    AtConcat(d, i, length, payload);
    ReadAt(d, i, length);
  }

  /** At a well-formed field, the loop makes the step that the field stands for. */
  lemma StepAtField<M(!new)>(s: Schema<M>, m: M, d: seq<byte>, i: nat, f: Field)
    requires Stable(s) && Local(s) && WellFormed(f) && At(d, i, Bytes(f))
    ensures match Apply(s, m, f)
            case None => Step(s, m, d, i).Err?
            case Some(next) => Step(s, m, d, i) == Ok(State(next, i + |Bytes(f)|))
  {
    hide ReadVarint, SkipFrom, ReadExtent, Stable, Local, IsVarint, ValueOf, FieldNumber, AllBytes;
    TagRead(d, i, f);
    var number := NumberOf(f);
    if number > 0 {
      match s(number)
      case Scalar(_) =>
        if f.VarintField? { ReadAt(d, i + |f.tag|, f.value); }
      case Delimited(_) =>
        if f.DelimitedField? {
          LengthRead(d, i + |f.tag|, f.length, f.payload);
          PayloadIsAll(s, m, d, number, i + |f.tag| + |f.length|, i + |Bytes(f)|);
        }
      case Unknown =>
        PassField(d, i, f, 0);
    }
  }

  /** And where the loop makes a step there is a well-formed field. */
  lemma FieldAtStep<M(!new)>(s: Schema<M>, m: M, d: seq<byte>, i: nat) returns (f: Field)
    requires Step(s, m, d, i).Ok?
    ensures WellFormed(f) && At(d, i, Bytes(f)) && i + |Bytes(f)| == Step(s, m, d, i).value.next
  {
    hide ReadVarint, SkipFrom;
    var tag := ReadTag(d, i).value;
    var next := Step(s, m, d, i).value.next;
    ReadSlice(d, i);
    match s(tag.number)
    case Scalar(_) =>
      ReadSlice(d, tag.next);
      JoinSlices(d, i, tag.next, next);
      f := VarintField(d[i..tag.next], d[tag.next..next]);
    case Delimited(_) =>
      var x := ReadExtent(d, tag.next).value;
      ReadSlice(d, tag.next);
      JoinSlices(d, tag.next, x.start, x.post);
      JoinSlices(d, i, tag.next, next);
      f := DelimitedField(d[i..tag.next], d[tag.next..x.start], d[x.start..x.post]);
    case Unknown =>
      f := SkippedField(d, i);
  }

  // ------------------------------------------------------------------ whole inputs

  lemma {:induction false} FieldsDecoded<M(!new)>(s: Schema<M>, m: M, d: seq<byte>, i: nat, fs: seq<Field>)
    requires Stable(s) && Local(s) && AllWellFormed(fs) && At(d, i, AllBytes(fs)) && i + |AllBytes(fs)| == |d|
    ensures match ApplyAll(s, m, fs)
            case None => Decode(s, m, d, i).Err?
            case Some(out) => Decode(s, m, d, i) == Ok(out)
    decreases |fs|
  {
    hide Stable, Local, Step, Apply, WellFormed, Bytes;
    if fs == [] {
      DecodeEnd(s, m, d);
    } else {
      var f, rest := fs[0], fs[1..];
      AtConcat(d, i, Bytes(f), AllBytes(rest));
      StepAtField(s, m, d, i, f);
      FieldHasBytes(f);
      var next := Apply(s, m, f);
      if next.Some? { FieldsDecoded(s, next.value, d, i + |Bytes(f)|, rest); }
    }
  }

  lemma FieldHasBytes(f: Field)
    requires WellFormed(f)
    ensures |Bytes(f)| > 0
  {
    TagComesFirst(f);
  }

  lemma {:induction false} DecodedFields<M(!new)>(s: Schema<M>, m: M, d: seq<byte>, i: nat) returns (fs: seq<Field>)
    requires Decode(s, m, d, i).Ok? && i <= |d|
    ensures AllWellFormed(fs) && AllBytes(fs) == d[i..]
    decreases |d| - i
  {
    hide Step, WellFormed, Bytes;
    fs := [];
    if i < |d| {
      var st := Step(s, m, d, i).value;
      var f := FieldAtStep(s, m, d, i);
      var rest := DecodedFields(s, st.m, d, st.next);
      fs := [f] + rest;
      assert fs[1..] == rest;
      assert d[i..] == d[i..st.next] + d[st.next..];
    }
  }

  /** An input decodes, to a given message, exactly when it is a sequence of well-formed
      fields that one after the other make that message. */
  lemma DecodesIff<M(!new)>(s: Schema<M>, m: M, d: seq<byte>, out: M)
    requires Stable(s) && Local(s)
    ensures Decode(s, m, d) == Ok(out) <==>
            exists fs :: AllWellFormed(fs) && AllBytes(fs) == d && ApplyAll(s, m, fs) == Some(out)
  {
    hide Stable, Local, Decode, AllWellFormed, AllBytes, ApplyAll;
    if Decode(s, m, d) == Ok(out) {
      var fs := DecodedFields(s, m, d, 0);
      assert d[0..] == d && d[0..|d|] == d;
      FieldsDecoded(s, m, d, 0, fs);
    }
    if fs :| AllWellFormed(fs) && AllBytes(fs) == d && ApplyAll(s, m, fs) == Some(out) {
      assert d[0..|d|] == d;
      FieldsDecoded(s, m, d, 0, fs);
    }
  }
}
