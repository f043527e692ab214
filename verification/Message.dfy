/** Decoding a message field by field: the loop that every Unmarshal of
    generated.pb.go runs, for any table of known fields, and what the Protocol
    Buffers "Last One Wins" and unknown-field rules say of it. */
module Message {
  import opened Common
  import opened Varint
  import opened WireFields

  /** What a message does with a field number: store a varint, merge the bytes
      d[start..post] of a delimited payload, or nothing. */
  datatype Kind<!M> =
    | Scalar(store: (M, nat) -> M)
    | Delimited(merge: (M, seq<byte>, nat, nat) -> Result<M>)
    | Unknown

  type Schema<!M> = int -> Kind<M>

  // ------------------------------------------------------------------ one field

  datatype Tag = Tag(number: int, wireType: nat, next: nat)

  /** int32(wire >> 3) */
  function FieldNumber(wire: nat): int {
    Signed(Truncate(wire, W64) / 8, W32)
  }

  function ReadTag(d: seq<byte>, i: nat): (r: Result<Tag>)
    ensures r.Ok? ==> i < r.value.next <= |d| && r.value.number > 0
  {
    var t :- ReadVarint(d, i);
    var wireType, number := t.value % 8, FieldNumber(t.value);
    if wireType == 4 then Err(EndGroupForNonGroup)
    else if number <= 0 then Err(IllegalTag)
    else Ok(Tag(number, wireType, t.next))
  }

  datatype Extent = Extent(start: nat, post: nat)

  /** The payload that the length at index i announces. */
  function ReadExtent(d: seq<byte>, i: nat): (r: Result<Extent>)
    ensures r.Ok? ==> i < r.value.start <= r.value.post <= |d|
  {
    var v :- ReadVarint(d, i);
    var n := Signed(v.value, W64);
    if n < 0 then Err(InvalidLength)
    else if v.next + n > |d| then Err(UnexpectedEOF)
    else Ok(Extent(v.next, v.next + n))
  }

  datatype State<+M> = State(m: M, next: nat)

  function Step<M>(s: Schema<M>, m: M, d: seq<byte>, i: nat): (r: Result<State<M>>)
    ensures r.Ok? ==> i < r.value.next <= |d|
  {
    var tag :- ReadTag(d, i);
    match s(tag.number)
    case Scalar(store) =>
      if tag.wireType != 0 then Err(WrongWireType)
      else
        var v :- ReadVarint(d, tag.next);
        Ok(State(store(m, v.value), v.next))
    case Delimited(merge) =>
      if tag.wireType != 2 then Err(WrongWireType)
      else
        var x :- ReadExtent(d, tag.next);
        var merged :- merge(m, d, x.start, x.post);
        Ok(State(merged, x.post))
    case Unknown =>
      var next :- Skip(d, i);
      Ok(State(m, next))
  }

  /** The message that m becomes when the fields of d from index i on are merged
      into it. */
  function Decode<M>(s: Schema<M>, m: M, d: seq<byte>, i: nat := 0): Result<M>
    decreases |d| - i
  {
    if i >= |d| then Ok(m)
    else
      var st :- Step(s, m, d, i);
      Decode(s, st.m, d, st.next)
  }

  lemma DecodeEnd<M>(s: Schema<M>, m: M, d: seq<byte>)
    ensures Decode(s, m, d, |d|) == Ok(m)
  {
  }

  /** A field whose value depends on its payload alone. */
  function Payload<M>(f: (M, seq<byte>) -> Result<M>): (k: Kind<M>)
    ensures k.Delimited?
  {
    Delimited((m: M, d: seq<byte>, start: nat, post: nat) =>
                if start <= post <= |d| then f(m, d[start..post]) else Err(UnexpectedEOF))
  }

  lemma PayloadTurn<M>(s: Schema<M>, m: M, d: seq<byte>, i: nat, f: (M, seq<byte>) -> Result<M>)
    requires ReadTag(d, i).Ok? && s(ReadTag(d, i).value.number) == Payload(f)
    ensures var tag := ReadTag(d, i).value;
            Step(s, m, d, i) ==
            if tag.wireType != 2 then Err(WrongWireType)
            else
              match ReadExtent(d, tag.next)
              case Err(e) => Err(e)
              case Ok(x) =>
                match f(m, d[x.start..x.post])
                case Err(e) => Err(e)
                case Ok(merged) => Ok(State(merged, x.post))
  {
    hide ReadTag, ReadExtent;
  }

  // --------------------------------------------------------- laws of the fields

  ghost predicate KeepsAt<M(!new)>(k: Kind<M>, m: M, x: seq<byte>, y: seq<byte>, start: nat, post: nat) {
    k.Delimited? && start <= post <= |x| && k.merge(m, x, start, post).Ok? ==>
      k.merge(m, x + y, start, post) == k.merge(m, x, start, post)
  }

  ghost predicate MovesAt<M(!new)>(k: Kind<M>, m: M, d: seq<byte>, i: nat, y: seq<byte>, start: nat, post: nat) {
    k.Delimited? && EndsWith(d, i, y) && start <= post <= |y| ==>
      k.merge(m, d, i + start, i + post) == k.merge(m, y, start, post)
  }

  /** What is decoded does not change when bytes are added after the input, or when
      the input is moved. */
  ghost predicate Stable<M(!new)>(s: Schema<M>) {
    && (forall num: int, m: M, x: seq<byte>, y: seq<byte>, start: nat, post: nat ::
          KeepsAt(s(num), m, x, y, start, post))
    && (forall num: int, m: M, d: seq<byte>, i: nat, y: seq<byte>, start: nat, post: nat ::
          MovesAt(s(num), m, d, i, y, start, post))
  }

  ghost predicate LocalAt<M(!new)>(k: Kind<M>, m: M, d: seq<byte>, cut: nat, start: nat, post: nat) {
    k.Delimited? && start <= post <= cut <= |d| ==>
      k.merge(m, d[..cut], start, post) == k.merge(m, d, start, post)
  }

  /** No field looks at bytes after its own payload. */
  ghost predicate Local<M(!new)>(s: Schema<M>) {
    forall num: int, m: M, d: seq<byte>, cut: nat, start: nat, post: nat ::
      LocalAt(s(num), m, d, cut, start, post)
  }

  lemma MovedSlice(d: seq<byte>, i: nat, y: seq<byte>, start: nat, post: nat)
    requires EndsWith(d, i, y) && start <= post <= |y|
    ensures d[i + start..i + post] == y[start..post]
  {
    var a, b := d[i + start..i + post], y[start..post];
    forall k | 0 <= k < |a| ensures a[k] == b[k] {
      EndsWithByte(d, i, y, start + k);
    }
  }

  lemma PayloadIsStable<M(!new)>(k: Kind<M>, f: (M, seq<byte>) -> Result<M>)
    requires k == Payload(f)
    ensures forall m: M, x: seq<byte>, y: seq<byte>, start: nat, post: nat :: KeepsAt(k, m, x, y, start, post)
    ensures forall m: M, d: seq<byte>, i: nat, y: seq<byte>, start: nat, post: nat :: MovesAt(k, m, d, i, y, start, post)
    ensures forall m: M, d: seq<byte>, cut: nat, start: nat, post: nat :: LocalAt(k, m, d, cut, start, post)
  {
    forall m: M, x: seq<byte>, y: seq<byte>, start: nat, post: nat ensures KeepsAt(k, m, x, y, start, post) {
      if start <= post <= |x| { assert (x + y)[start..post] == x[start..post]; }
    }
    forall m: M, d: seq<byte>, i: nat, y: seq<byte>, start: nat, post: nat ensures MovesAt(k, m, d, i, y, start, post) {
      if EndsWith(d, i, y) && start <= post <= |y| { MovedSlice(d, i, y, start, post); }
    }
    forall m: M, d: seq<byte>, cut: nat, start: nat, post: nat ensures LocalAt(k, m, d, cut, start, post) {
      if start <= post <= cut <= |d| { assert d[..cut][start..post] == d[start..post]; }
    }
  }

  // --------------------------------------------------------------- last one wins

  lemma PrefixAt(x: seq<byte>, y: seq<byte>, i: nat, j: nat)
    requires i <= j <= |x|
    ensures At(x + y, i, x[i..j])
  {
    assert (x + y)[i..j] == x[i..j];
  }

  lemma ReadVarintPrefix(x: seq<byte>, y: seq<byte>, i: nat)
    requires ReadVarint(x, i).Ok?
    ensures ReadVarint(x + y, i) == ReadVarint(x, i)
  {
    PrefixAt(x, y, i, ReadVarint(x, i).value.next);
    ReadVarintCopy(x, i, x + y, i);
  }

  lemma StepPrefix<M(!new)>(s: Schema<M>, m: M, x: seq<byte>, y: seq<byte>, i: nat)
    requires Stable(s) && Step(s, m, x, i).Ok?
    ensures Step(s, m, x + y, i) == Step(s, m, x, i)
  {
    hide ReadVarint, SkipFrom;
    ReadVarintPrefix(x, y, i);
    var tag := ReadTag(x, i).value;
    match s(tag.number)
    case Scalar(_) =>
      ReadVarintPrefix(x, y, tag.next);
    case Delimited(_) =>
      ReadVarintPrefix(x, y, tag.next);
      var e := ReadExtent(x, tag.next).value;
      assert KeepsAt(s(tag.number), m, x, y, e.start, e.post);
    case Unknown =>
      PrefixAt(x, y, i, Skip(x, i).value);
      SkipCopy(x, i, x + y, i);
  }

  lemma {:induction false} DecodePrefix<M(!new)>(s: Schema<M>, m: M, x: seq<byte>, y: seq<byte>, i: nat)
    requires Stable(s) && i <= |x| && Decode(s, m, x, i).Ok?
    ensures Decode(s, m, x + y, i) == Decode(s, Decode(s, m, x, i).value, x + y, |x|)
    decreases |x| - i
  {
    hide Step;
    if i < |x| {
      StepPrefix(s, m, x, y, i);
      var st := Step(s, m, x, i).value;
      DecodePrefix(s, st.m, x, y, st.next);
    }
  }

  function MoveState<M>(r: Result<State<M>>, i: nat): Result<State<M>> {
    match r
    case Ok(st) => Ok(State(st.m, i + st.next))
    case Err(e) => Err(e)
  }

  lemma StepMoved<M(!new)>(s: Schema<M>, m: M, d: seq<byte>, i: nat, y: seq<byte>, j: nat)
    requires Stable(s) && EndsWith(d, i, y)
    ensures Step(s, m, d, i + j) == MoveState(Step(s, m, y, j), i)
  {
    hide ReadVarint, SkipFrom;
    ReadVarintMoved(d, i, y, j);
    if ReadTag(y, j).Ok? {
      var tag := ReadTag(y, j).value;
      match s(tag.number)
      case Scalar(_) =>
        ReadVarintMoved(d, i, y, tag.next);
      case Delimited(_) =>
        ReadVarintMoved(d, i, y, tag.next);
        if ReadExtent(y, tag.next).Ok? {
          var e := ReadExtent(y, tag.next).value;
          assert MovesAt(s(tag.number), m, d, i, y, e.start, e.post);
        }
      case Unknown =>
        SkipMoved(d, i, y, j, 0);
    }
  }

  lemma {:induction false} DecodeMoved<M(!new)>(s: Schema<M>, m: M, d: seq<byte>, i: nat, y: seq<byte>, j: nat)
    requires Stable(s) && EndsWith(d, i, y)
    ensures Decode(s, m, d, i + j) == Decode(s, m, y, j)
    decreases |y| - j
  {
    hide Step;
    if j < |y| {
      StepMoved(s, m, d, i, y, j);
      var st := Step(s, m, y, j);
      if st.Ok? { DecodeMoved(s, st.value.m, d, i, y, st.value.next); }
    }
  }

  /** Concatenation is merge: once x has been decoded, whatever follows it is
      decoded into what x gave, with the same outcome. */
  lemma ConcatenationMerges<M(!new)>(s: Schema<M>, m: M, x: seq<byte>, y: seq<byte>)
    requires Stable(s) && Decode(s, m, x).Ok?
    ensures Decode(s, m, x + y) == Decode(s, Decode(s, m, x).value, y)
  {
    hide Decode;
    DecodePrefix(s, m, x, y, 0);
    DecodeMoved(s, Decode(s, m, x).value, x + y, |x|, y, 0);
  }

  // -------------------------------------------------------------- unknown fields

  /** The field number in the tag of a wire field. */
  function NumberOf(f: Field): int
    requires WellFormed(f)
  {
    FieldNumber(ValueOf(f.tag))
  }

  /** A well-formed field, of any wire type and nesting, that the message ignores. */
  predicate Ignored<M>(s: Schema<M>, f: Field) {
    WellFormed(f) && NumberOf(f) > 0 && s(NumberOf(f)).Unknown?
  }

  lemma TagComesFirst(f: Field)
    requires WellFormed(f)
    ensures IsVarint(f.tag) && At(Bytes(f), 0, f.tag) && ValueOf(f.tag) % 8 != 4
  {
    match f
    case VarintField(tag, value) => AtConcat(Bytes(f), 0, tag, value);
    case Fixed64Field(tag, value) => AtConcat(Bytes(f), 0, tag, value);
    case DelimitedField(tag, length, payload) => AtConcat(Bytes(f), 0, tag, length + payload);
    case GroupField(tag, body, endTag) => AtConcat(Bytes(f), 0, tag, AllBytes(body) + endTag);
    case Fixed32Field(tag, value) => AtConcat(Bytes(f), 0, tag, value);
  }

  lemma IgnoredAlone<M>(s: Schema<M>, m: M, f: Field)
    requires Ignored(s, f)
    ensures Decode(s, m, Bytes(f)) == Ok(m)
  {
    TagComesFirst(f);
    ReadAt(Bytes(f), 0, f.tag);
    PassField(Bytes(f), 0, f, 0);
    assert Step(s, m, Bytes(f), 0) == Ok(State(m, |Bytes(f)|));
  }

  /** Forward compatibility: after any input that decodes, a field the message does
      not know changes nothing, whatever comes next. */
  lemma UnknownFieldIgnored<M(!new)>(s: Schema<M>, m: M, p: seq<byte>, f: Field, q: seq<byte>)
    requires Stable(s) && Decode(s, m, p).Ok? && Ignored(s, f)
    ensures Decode(s, m, p + (Bytes(f) + q)) == Decode(s, m, p + q)
  {
    var now := Decode(s, m, p).value;
    ConcatenationMerges(s, m, p, Bytes(f) + q);
    ConcatenationMerges(s, m, p, q);
    IgnoredAlone(s, now, f);
    ConcatenationMerges(s, now, Bytes(f), q);
  }

  /** Index k is where the decoder's cursor stands between two fields. */
  predicate Boundary<M>(s: Schema<M>, m: M, d: seq<byte>, i: nat, k: nat)
    decreases |d| - i
  {
    i == k ||
    (i < k && var st := Step(s, m, d, i);
     st.Ok? && Boundary(s, st.value.m, d, st.value.next, k))
  }

  lemma ReadVarintCut(d: seq<byte>, i: nat, k: nat)
    requires k <= |d| && ReadVarint(d, i).Ok? && ReadVarint(d, i).value.next <= k
    ensures ReadVarint(d[..k], i) == ReadVarint(d, i)
  {
    assert d[..k][i..ReadVarint(d, i).value.next] == d[i..ReadVarint(d, i).value.next];
    ReadVarintCopy(d, i, d[..k], i);
  }

  lemma StepCut<M(!new)>(s: Schema<M>, m: M, d: seq<byte>, i: nat, k: nat)
    requires Local(s) && k <= |d| && Step(s, m, d, i).Ok? && Step(s, m, d, i).value.next <= k
    ensures Step(s, m, d[..k], i) == Step(s, m, d, i)
  {
    hide ReadVarint;
    ReadVarintCut(d, i, k);
    var tag := ReadTag(d, i).value;
    match s(tag.number)
    case Scalar(_) =>
      ReadVarintCut(d, tag.next, k);
    case Delimited(_) =>
      ReadVarintCut(d, tag.next, k);
      var e := ReadExtent(d, tag.next).value;
      assert LocalAt(s(tag.number), m, d, k, e.start, e.post);
    case Unknown =>
      var next := Skip(d, i).value;
      assert d[..k][i..next] == d[i..next];
      SkipCopy(d, i, d[..k], i);
  }

  lemma BoundaryReached<M>(s: Schema<M>, m: M, d: seq<byte>, i: nat, k: nat)
    requires Boundary(s, m, d, i, k)
    ensures i <= k
  {
  }

  /** Where no field looks beyond its payload, what stands before a boundary decodes
      on its own. */
  lemma {:induction false} BoundaryDecodes<M(!new)>(s: Schema<M>, m: M, d: seq<byte>, i: nat, k: nat)
    requires Local(s) && k <= |d| && Boundary(s, m, d, i, k)
    ensures Decode(s, m, d[..k], i).Ok?
    decreases |d| - i
  {
    if i < k {
      var st := Step(s, m, d, i).value;
      BoundaryReached(s, st.m, d, st.next, k);
      StepCut(s, m, d, i, k);
      BoundaryDecodes(s, st.m, d, st.next, k);
    }
  }

  /** Forward compatibility at every boundary between two fields. */
  lemma UnknownFieldAtBoundary<M(!new)>(s: Schema<M>, m: M, d: seq<byte>, k: nat, f: Field)
    requires Stable(s) && Local(s) && Ignored(s, f)
    requires k <= |d| && Boundary(s, m, d, 0, k)
    ensures Decode(s, m, d[..k] + (Bytes(f) + d[k..])) == Decode(s, m, d)
  {
    hide Decode, Boundary, Bytes, Ignored;
    BoundaryDecodes(s, m, d, 0, k);
    UnknownFieldIgnored(s, m, d[..k], f, d[k..]);
    assert d[..k] + d[k..] == d;
  }

  // -------------------------------------------------------- fields of an encoding

  function Key(number: nat, wireType: nat): seq<byte> {
    EncodeVarint(8 * number + wireType)
  }

  function ScalarBytes(number: nat, v: nat): seq<byte> {
    Key(number, 0) + EncodeVarint(v)
  }

  function DelimitedBytes(number: nat, p: seq<byte>): seq<byte> {
    Key(number, 2) + (EncodeVarint(|p|) + p)
  }

  lemma KeyRead(d: seq<byte>, i: nat, number: nat, wireType: nat)
    requires 0 < number < 0x1000_0000 && wireType < 8 && wireType != 4
    requires At(d, i, Key(number, wireType))
    ensures ReadTag(d, i) == Ok(Tag(number, wireType, i + |Key(number, wireType)|))
  {
    hide ReadVarint, EncodeVarint;
    ReadEncodedUint64(d, i, 8 * number + wireType);
    TagParts(number, wireType);
  }

  lemma TagParts(number: nat, wireType: nat)
    requires number < 0x1000_0000 && wireType < 8
    ensures FieldNumber(8 * number + wireType) == number && (8 * number + wireType) % 8 == wireType
  {
  }

  lemma ScalarStep<M>(s: Schema<M>, m: M, d: seq<byte>, i: nat, number: nat, v: nat)
    requires 0 < number < 0x1000_0000 && v < TWO_TO_64 && s(number).Scalar?
    requires At(d, i, ScalarBytes(number, v))
    ensures Step(s, m, d, i) == Ok(State(s(number).store(m, v), i + |ScalarBytes(number, v)|))
  {
    hide ReadVarint, EncodeVarint, ReadTag;
    AtConcat(d, i, Key(number, 0), EncodeVarint(v));
    KeyRead(d, i, number, 0);
    ReadEncodedUint64(d, i + |Key(number, 0)|, v);
  }

  lemma ExtentRead(d: seq<byte>, i: nat, p: seq<byte>)
    requires |p| <= MAX_INT && At(d, i, EncodeVarint(|p|) + p)
    ensures var start := i + |EncodeVarint(|p|)|;
            ReadExtent(d, i) == Ok(Extent(start, start + |p|)) && d[start..start + |p|] == p
  {
    hide EncodeVarint, ReadVarint, Signed;
    AtConcat(d, i, EncodeVarint(|p|), p);
    ReadEncodedUint64(d, i, |p|);
    IndexWraps(|p|);
  }

  /** A delimited field of an encoding merges its payload. */
  lemma DelimitedStep<M>(s: Schema<M>, m: M, d: seq<byte>, i: nat, number: nat, p: seq<byte>) returns (start: nat)
    requires 0 < number < 0x1000_0000 && |p| <= MAX_INT && s(number).Delimited?
    requires At(d, i, DelimitedBytes(number, p))
    ensures start + |p| == i + |DelimitedBytes(number, p)| <= |d| && d[start..start + |p|] == p
    ensures Step(s, m, d, i) ==
            match s(number).merge(m, d, start, start + |p|)
            case Ok(merged) => Ok(State(merged, start + |p|))
            case Err(e) => Err(e)
  {
    hide ReadVarint, EncodeVarint, ReadTag, ReadExtent;
    AtConcat(d, i, Key(number, 2), EncodeVarint(|p|) + p);
    KeyRead(d, i, number, 2);
    ExtentRead(d, i + |Key(number, 2)|, p);
    start := i + |Key(number, 2)| + |EncodeVarint(|p|)|;
  }
}
