/** The pieces that the generated Marshal and Unmarshal methods repeat: reading a
    tag, a length or an unknown field at a cursor, and writing backwards. */
module Generated {
  import opened Common
  import opened Varint
  import opened WireFields
  import opened Message

  /** An Unmarshal did what the specification says: the same value, or an error. */
  ghost predicate Agrees<M>(spec: Result<M>, value: M, err: Option<Error>) {
    match spec
    case Ok(v) => err.None? && value == v
    case Err(e) => err.Some? && SameError(e, err.value)
  }

  // --------------------------------------------------------------------- reading

  method DecodeTag(dAtA: seq<byte>, start: nat) returns (fieldNum: int, wireType: nat, iNdEx: nat, err: Option<Error>)
    requires start <= |dAtA|
    ensures match ReadTag(dAtA, start)
            case Ok(t) => err.None? && fieldNum == t.number && wireType == t.wireType && iNdEx == t.next
            case Err(e) => err == Some(e)
  {
    hide ReadVarint;
    var wire;
    wire, iNdEx, err := DecodeVarint(dAtA, start, W64);
    fieldNum, wireType := 0, 0;
    if err.Some? { return; }
    LowThreeBits(ReadVarint(dAtA, start).value.value);
    fieldNum := Signed(wire / 8, W32);
    wireType := wire % 8;
    if wireType == 4 {
      err := Some(EndGroupForNonGroup);
    } else if fieldNum <= 0 {
      err := Some(IllegalTag);
    }
  }

  /** A length and the index after the payload it announces; the sum of the two may
      wrap below zero. */
  method DecodeLength(dAtA: seq<byte>, start: nat) returns (iNdEx: nat, postIndex: nat, err: Option<Error>)
    requires start <= |dAtA| <= MAX_INT
    ensures match ReadExtent(dAtA, start)
            case Ok(x) => err.None? && iNdEx == x.start && postIndex == x.post
            case Err(e) => err.Some? && SameError(e, err.value)
  {
    hide ReadVarint;
    var v;
    v, iNdEx, err := DecodeVarint(dAtA, start, W64);
    postIndex := iNdEx;
    if err.Some? { return; }
    var length := Signed(v, W64);
    if length < 0 { return iNdEx, iNdEx, Some(InvalidLength); }
    IndexWraps(iNdEx + length);
    var post := Signed(iNdEx + length, W64);
    if post < 0 { return iNdEx, iNdEx, Some(InvalidLength); }
    if post > |dAtA| { return iNdEx, iNdEx, Some(UnexpectedEOF); }
    postIndex := post;
  }

  /** The default case of every Unmarshal: pass over the field that starts at
      preIndex, within the first `limit` bytes. */
  method SkipUnknown(dAtA: seq<byte>, preIndex: nat, limit: nat) returns (iNdEx: nat, err: Option<Error>)
    requires preIndex <= |dAtA| <= MAX_INT && limit <= |dAtA|
    ensures match Skip(dAtA, preIndex)
            case Ok(j) => if j <= limit then err.None? && iNdEx == j else err == Some(UnexpectedEOF)
            case Err(e) => err.Some? && SameError(e, err.value)
  {
    hide SkipFrom;
    iNdEx := preIndex;
    var skippy;
    skippy, err := SkipGenerated(dAtA[preIndex..]);
    SkipMoved(dAtA, preIndex, dAtA[preIndex..], 0, 0);
    if err.Some? { return; }
    IndexWraps(preIndex + skippy);
    if skippy < 0 || Signed(iNdEx + skippy, W64) < 0 { return iNdEx, Some(InvalidLength); }
    if Signed(iNdEx + skippy, W64) > limit { return iNdEx, Some(UnexpectedEOF); }
    iNdEx := Signed(iNdEx + skippy, W64);
  }

  // --------------------------------------------------------------------- writing

  /* A buffer is filled from its end: `was` is what it held, and `out` what has been
     written so far, which starts at index i. Each step puts more in front. */

  /** Writes the varint of a scalar field and its one-byte tag. */
  method PrependScalar(dAtA: array<byte>, i: nat, tag: byte, v: nat, ghost was: seq<byte>, ghost out: seq<byte>)
    returns (j: nat)
    requires tag < 128 && tag % 8 == 0 && v < TWO_TO_64
    requires i + |out| <= |was| == dAtA.Length && dAtA[..] == Splice(was, i, out)
    requires |ScalarBytes(tag / 8, v)| <= i
    modifies dAtA
    ensures j == i - |ScalarBytes(tag / 8, v)|
    ensures dAtA[..] == Splice(was, j, ScalarBytes(tag / 8, v) + out)
  {
    hide EncodeVarint, Sov;
    j := PrependVarint(dAtA, i, tag, v, was, out);
    Associate([tag], EncodeVarint(v), out);
    OneByte(tag);
  }

  method PrependVarint(dAtA: array<byte>, i: nat, tag: byte, v: nat, ghost was: seq<byte>, ghost out: seq<byte>)
    returns (j: nat)
    requires v < TWO_TO_64
    requires i + |out| <= |was| == dAtA.Length && dAtA[..] == Splice(was, i, out)
    requires 1 + |EncodeVarint(v)| <= i
    modifies dAtA
    ensures j == i - 1 - |EncodeVarint(v)|
    ensures dAtA[..] == Splice(was, j, [tag] + (EncodeVarint(v) + out))
  {
    hide EncodeVarint, Sov;
    SovCountsDigits(v);
    j := EncodeVarintGenerated(dAtA, i, v);
    SplicePrepend(was, i, out, EncodeVarint(v));
    j := j - 1;
    SplicePrependByte(was, j, EncodeVarint(v) + out, tag);
    dAtA[j] := tag;
  }

  lemma SplicePrependByte(was: seq<byte>, j: nat, out: seq<byte>, b: byte)
    requires j + 1 + |out| <= |was|
    ensures Splice(was, j + 1, out)[j := b] == Splice(was, j, [b] + out)
  {
  }

  lemma OneByte(b: nat)
    requires b < 128
    ensures EncodeVarint(b) == [b]
  {
  }

  /** Go's copy into the bytes that end at index i. */
  method PrependBytes(dAtA: array<byte>, i: nat, s: seq<byte>, ghost was: seq<byte>, ghost out: seq<byte>)
    returns (j: nat)
    requires |s| <= i && i + |out| <= |was| == dAtA.Length && dAtA[..] == Splice(was, i, out)
    modifies dAtA
    ensures j == i - |s|
    ensures dAtA[..] == Splice(was, j, s + out)
  {
    j := i - |s|;
    forall k | 0 <= k < |s| {
      dAtA[j + k] := s[k];
    }
    assert dAtA[..] == Splice(old(dAtA[..]), j, s);
    SplicePrepend(was, i, out, s);
  }

  /** Puts the length and the one-byte tag in front of a payload p. */
  method PrependHeader(dAtA: array<byte>, i: nat, tag: byte, size: nat, ghost was: seq<byte>, ghost p: seq<byte>, ghost out: seq<byte>)
    returns (j: nat)
    requires tag < 128 && tag % 8 == 2 && size == |p| <= MAX_INT
    requires i + |p + out| <= |was| == dAtA.Length && dAtA[..] == Splice(was, i, p + out)
    requires |DelimitedBytes(tag / 8, p)| <= i + |p|
    modifies dAtA
    ensures j == i + |p| - |DelimitedBytes(tag / 8, p)|
    ensures dAtA[..] == Splice(was, j, DelimitedBytes(tag / 8, p) + out)
  {
    hide EncodeVarint, Sov;
    OneByte(tag);
    j := PrependVarint(dAtA, i, tag, size, was, p + out);
    Associate(EncodeVarint(size), p, out);
    Associate([tag], EncodeVarint(size) + p, out);
  }
}
