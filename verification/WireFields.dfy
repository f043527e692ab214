/** Whole wire fields: skipGenerated of generated.pb.go, which replaces the nesting
    of groups with a depth counter, against a recursive grammar. The grammar is that
    of the Protocol Buffers "Message Structure" and "Groups" sections, but for the
    field numbers, which skipGenerated does not look at: see Groups. */
module WireFields {
  import opened Common
  import opened Varint

  // ---------------------------------------------------------- the flat scanner

  /** Where a scan stands, and how many groups are open there. */
  datatype Progress = Progress(next: nat, depth: nat)

  /** What follows a tag of wire type wt. Fixed-size and delimited payloads may
      claim more bytes than there are. */
  function ScanPayload(wt: nat, d: seq<byte>, i: nat, depth: nat): (r: Result<Progress>)
    ensures r.Ok? ==> r.value.next >= i
    ensures r.Ok? && i <= |d| ==> r.value.next <= |d| + MAX_INT
  {
    match wt
    case 0 =>
      var v :- ReadVarint(d, i);
      Ok(Progress(v.next, depth))
    case 1 => Ok(Progress(i + 8, depth))
    case 2 =>
      var v :- ReadVarint(d, i);
      if Signed(v.value, W64) < 0 then Err(InvalidLength)
      else Ok(Progress(v.next + Signed(v.value, W64), depth))
    case 3 => Ok(Progress(i, depth + 1))
    case 4 => if depth == 0 then Err(UnexpectedEndOfGroup) else Ok(Progress(i, depth - 1))
    case 5 => Ok(Progress(i + 4, depth))
    case _ => Err(IllegalWireType)
  }

  /** One tag and its payload. */
  function Scan(d: seq<byte>, i: nat, depth: nat): (r: Result<Progress>)
    ensures r.Ok? ==> r.value.next > i
  {
    var tag :- ReadVarint(d, i);
    ScanPayload(tag.value % 8, d, tag.next, depth)
  }

  /** Scans from index i until no group is open, starting with `depth` open ones. */
  function SkipFrom(d: seq<byte>, i: nat, depth: nat): (r: Result<nat>)
    ensures r.Ok? ==> i < r.value <= |d|
    decreases |d| - i
  {
    var p :- Scan(d, i, depth);
    if p.next > |d| then Err(UnexpectedEOF)
    else if p.depth == 0 then Ok(p.next)
    else SkipFrom(d, p.next, p.depth)
  }

  /** The index after the field that starts at i. */
  function Skip(d: seq<byte>, i: nat): (r: Result<nat>)
    ensures r.Ok? ==> i < r.value <= |d|
  {
    SkipFrom(d, i, 0)
  }

  // --------------------------------------------------------------- the grammar

  /** One field as it stands on the wire. Tags and lengths are kept as the bytes
      that spell them, because a varint has more than one spelling. */
  datatype Field =
    | VarintField(tag: seq<byte>, value: seq<byte>)
    | Fixed64Field(tag: seq<byte>, value: seq<byte>)
    | DelimitedField(tag: seq<byte>, length: seq<byte>, payload: seq<byte>)
    | GroupField(tag: seq<byte>, body: seq<Field>, endTag: seq<byte>)
    | Fixed32Field(tag: seq<byte>, value: seq<byte>)

  predicate IsVarint(s: seq<byte>) {
    ReadVarint(s, 0).Ok? && ReadVarint(s, 0).value.next == |s|
  }

  function ValueOf(s: seq<byte>): nat
    requires IsVarint(s)
  {
    ReadVarint(s, 0).value.value
  }

  predicate IsTag(s: seq<byte>, wt: nat) {
    IsVarint(s) && ValueOf(s) % 8 == wt
  }

  predicate WellFormed(f: Field) {
    match f
    case VarintField(tag, value) => IsTag(tag, 0) && IsVarint(value)
    case Fixed64Field(tag, value) => IsTag(tag, 1) && |value| == 8
    case DelimitedField(tag, length, payload) =>
      IsTag(tag, 2) && IsVarint(length) && Signed(ValueOf(length), W64) == |payload|
    case GroupField(tag, body, endTag) =>
      IsTag(tag, 3) && IsTag(endTag, 4) && AllWellFormed(body)
    case Fixed32Field(tag, value) => IsTag(tag, 5) && |value| == 4
  }

  predicate AllWellFormed(fs: seq<Field>) {
    fs == [] || (WellFormed(fs[0]) && AllWellFormed(fs[1..]))
  }

  function Bytes(f: Field): seq<byte> {
    match f
    case VarintField(tag, value) => tag + value
    case Fixed64Field(tag, value) => tag + value
    case DelimitedField(tag, length, payload) => tag + (length + payload)
    case GroupField(tag, body, endTag) => tag + (AllBytes(body) + endTag)
    case Fixed32Field(tag, value) => tag + value
  }

  function AllBytes(fs: seq<Field>): seq<byte> {
    if fs == [] then [] else Bytes(fs[0]) + AllBytes(fs[1..])
  }

  // ------------------------------------------------ every field is skipped whole

  lemma ReadAt(d: seq<byte>, i: nat, s: seq<byte>)
    requires IsVarint(s) && At(d, i, s)
    ensures ReadVarint(d, i) == Ok(Varint(ValueOf(s), i + |s|))
  {
    assert s[0..|s|] == s;
    ReadVarintCopy(s, 0, d, i);
  }

  /** Passing a field of n bytes, which ends the scan at the top level. */
  predicate Passes(d: seq<byte>, i: nat, depth: nat, n: nat) {
    SkipFrom(d, i, depth) == if depth == 0 then Ok(i + n) else SkipFrom(d, i + n, depth)
  }

  lemma PassSimple(d: seq<byte>, i: nat, tag: seq<byte>, payload: seq<byte>, depth: nat, wt: nat)
    requires At(d, i, tag + payload) && IsTag(tag, wt)
    requires ScanPayload(wt, d, i + |tag|, depth) == Ok(Progress(i + |tag| + |payload|, depth))
    ensures Passes(d, i, depth, |tag + payload|)
  {
    hide ReadVarint;
    AtConcat(d, i, tag, payload);
    ReadAt(d, i, tag);
  }

  lemma PassDelimited(d: seq<byte>, i: nat, tag: seq<byte>, length: seq<byte>, payload: seq<byte>, depth: nat)
    requires At(d, i, tag + (length + payload)) && IsTag(tag, 2)
    requires IsVarint(length) && Signed(ValueOf(length), W64) == |payload|
    ensures Passes(d, i, depth, |tag + (length + payload)|)
  {
    hide SkipFrom, ReadVarint;
    AtConcat(d, i, tag, length + payload);
    AtConcat(d, i + |tag|, length, payload);
    ReadAt(d, i + |tag|, length);
    PassSimple(d, i, tag, length + payload, depth, 2);
  }

  lemma PassVarint(d: seq<byte>, i: nat, tag: seq<byte>, value: seq<byte>, depth: nat)
    requires At(d, i, tag + value) && IsTag(tag, 0) && IsVarint(value)
    ensures Passes(d, i, depth, |tag + value|)
  {
    hide SkipFrom, ReadVarint;
    AtConcat(d, i, tag, value);
    ReadAt(d, i + |tag|, value);
    PassSimple(d, i, tag, value, depth, 0);
  }

  /** In an open group, a well-formed field is passed over and the scan goes on; at
      the top level it ends the scan. */
  lemma {:induction false} PassField(d: seq<byte>, i: nat, f: Field, depth: nat)
    requires WellFormed(f) && At(d, i, Bytes(f))
    ensures Passes(d, i, depth, |Bytes(f)|)
    decreases f
  {
    hide SkipFrom, ReadVarint, IsVarint, ValueOf, Passes, At;
    match f
    case VarintField(tag, value) =>
      PassVarint(d, i, tag, value, depth);
    case Fixed64Field(tag, value) =>
      PassSimple(d, i, tag, value, depth, 1);
    case DelimitedField(tag, length, payload) =>
      PassDelimited(d, i, tag, length, payload, depth);
    case Fixed32Field(tag, value) =>
      PassSimple(d, i, tag, value, depth, 5);
    case GroupField(tag, body, endTag) =>
      AtConcat(d, i, tag, AllBytes(body) + endTag);
      AtConcat(d, i + |tag|, AllBytes(body), endTag);
      PassFields(d, i + |tag|, body, depth + 1);
      PassGroup(d, i, tag, |AllBytes(body)|, endTag, depth);
  }

  lemma PassGroup(d: seq<byte>, i: nat, tag: seq<byte>, n: nat, endTag: seq<byte>, depth: nat)
    requires IsTag(tag, 3) && IsTag(endTag, 4)
    requires At(d, i, tag) && Passes(d, i + |tag|, depth + 1, n) && At(d, i + |tag| + n, endTag)
    ensures Passes(d, i, depth, |tag| + n + |endTag|)
  {
    hide ReadVarint;
    ReadAt(d, i, tag);
    ReadAt(d, i + |tag| + n, endTag);
  }

  lemma {:induction false} PassFields(d: seq<byte>, i: nat, fs: seq<Field>, depth: nat)
    requires depth > 0 && AllWellFormed(fs) && At(d, i, AllBytes(fs))
    ensures Passes(d, i, depth, |AllBytes(fs)|)
    decreases fs
  {
    hide SkipFrom, WellFormed, Bytes;
    if fs != [] {
      AtConcat(d, i, Bytes(fs[0]), AllBytes(fs[1..]));
      PassField(d, i, fs[0], depth);
      PassFields(d, i + |Bytes(fs[0])|, fs[1..], depth);
    }
  }

  // ------------------------------------------- whatever is skipped is one field

  lemma ReadSlice(d: seq<byte>, i: nat)
    requires ReadVarint(d, i).Ok?
    ensures var r := ReadVarint(d, i).value;
            IsVarint(d[i..r.next]) && ValueOf(d[i..r.next]) == r.value
  {
    var next := ReadVarint(d, i).value.next;
    ReadVarintCopy(d, i, d[i..next], 0);
  }

  lemma JoinSlices(d: seq<byte>, i: nat, j: nat, k: nat)
    requires i <= j <= k <= |d|
    ensures d[i..j] + d[j..k] == d[i..k]
  {
  }

  /** The field that a tag of wire type 0, 1, 2 or 5 begins. */
  lemma SimpleField(d: seq<byte>, i: nat, depth: nat) returns (f: Field, next: nat)
    requires SkipFrom(d, i, depth).Ok? && ReadVarint(d, i).value.value % 8 in {0, 1, 2, 5}
    ensures WellFormed(f) && i < next <= |d| && Bytes(f) == d[i..next]
    ensures SkipFrom(d, i, depth) == if depth == 0 then Ok(next) else SkipFrom(d, next, depth)
  {
    var tag := ReadVarint(d, i).value;
    var wt := tag.value % 8;
    ReadSlice(d, i);
    next := Scan(d, i, depth).value.next;
    JoinSlices(d, i, tag.next, next);
    var t := d[i..tag.next];
    if wt == 0 {
      ReadSlice(d, tag.next);
      f := VarintField(t, d[tag.next..next]);
    } else if wt == 2 {
      ReadSlice(d, tag.next);
      var length := ReadVarint(d, tag.next).value;
      JoinSlices(d, tag.next, length.next, next);
      f := DelimitedField(t, d[tag.next..length.next], d[length.next..next]);
    } else if wt == 1 {
      f := Fixed64Field(t, d[tag.next..next]);
    } else {
      f := Fixed32Field(t, d[tag.next..next]);
    }
  }

  /** The rest of an open group: the fields up to its end tag. */
  datatype Level = Level(fields: seq<Field>, endTag: seq<byte>)

  function LevelBytes(levels: seq<Level>): seq<byte> {
    if levels == [] then []
    else AllBytes(levels[0].fields) + (levels[0].endTag + LevelBytes(levels[1..]))
  }

  predicate GoodLevels(levels: seq<Level>) {
    levels == [] ||
    (IsTag(levels[0].endTag, 4) && AllWellFormed(levels[0].fields) && GoodLevels(levels[1..]))
  }

  lemma PutFirst(f: Field, levels: seq<Level>) returns (more: seq<Level>)
    requires levels != [] && WellFormed(f) && GoodLevels(levels)
    ensures |more| == |levels| && GoodLevels(more) && LevelBytes(more) == Bytes(f) + LevelBytes(levels)
  {
    var fs, end := levels[0].fields, levels[0].endTag;
    more := [Level([f] + fs, end)] + levels[1..];
    assert ([f] + fs)[1..] == fs && more[1..] == levels[1..];
    Associate(Bytes(f), AllBytes(fs), end + LevelBytes(levels[1..]));
  }

  lemma Associate(x: seq<byte>, y: seq<byte>, z: seq<byte>)
    ensures (x + y) + z == x + (y + z)
  {
  }

  /** An opening tag, the fields after it and its end tag are a group, which joins
      the next level out. */
  lemma CloseGroup(tag: seq<byte>, inner: seq<Level>) returns (levels: seq<Level>)
    requires IsTag(tag, 3) && |inner| > 1 && GoodLevels(inner)
    ensures |levels| == |inner| - 1 && GoodLevels(levels) && LevelBytes(levels) == tag + LevelBytes(inner)
  {
    var fields, end, outer := AllBytes(inner[0].fields), inner[0].endTag, LevelBytes(inner[1..]);
    levels := PutFirst(GroupField(tag, inner[0].fields, inner[0].endTag), inner[1..]);
    Associate(fields, end, outer);
    Associate(tag, fields + end, outer);
  }

  lemma EndGroup(tag: seq<byte>, outer: seq<Level>) returns (levels: seq<Level>)
    requires IsTag(tag, 4) && GoodLevels(outer)
    ensures |levels| == |outer| + 1 && GoodLevels(levels) && LevelBytes(levels) == tag + LevelBytes(outer)
  {
    levels := [Level([], tag)] + outer;
    assert levels[1..] == outer;
  }

  /** A scan that starts inside `depth` groups passes over the rest of each. */
  lemma {:induction false} SkippedLevels(d: seq<byte>, i: nat, depth: nat) returns (levels: seq<Level>)
    requires depth > 0 && SkipFrom(d, i, depth).Ok?
    ensures |levels| == depth && GoodLevels(levels)
    ensures LevelBytes(levels) == d[i..SkipFrom(d, i, depth).value]
    decreases |d| - i
  {
    var tag := ReadVarint(d, i).value;
    var wt := tag.value % 8;
    var end := SkipFrom(d, i, depth).value;
    ReadSlice(d, i);
    if wt in {0, 1, 2, 5} {
      var f, next := SimpleField(d, i, depth);
      var later := SkippedLevels(d, next, depth);
      levels := PutFirst(f, later);
      JoinSlices(d, i, next, end);
    } else if wt == 3 {
      var inner := SkippedLevels(d, tag.next, depth + 1);
      levels := CloseGroup(d[i..tag.next], inner);
      JoinSlices(d, i, tag.next, end);
    } else {
      var outer: seq<Level> := [];
      if depth > 1 {
        outer := SkippedLevels(d, tag.next, depth - 1);
        JoinSlices(d, i, tag.next, end);
      }
      levels := EndGroup(d[i..tag.next], outer);
    }
  }

  lemma SkippedField(d: seq<byte>, i: nat) returns (f: Field)
    requires Skip(d, i).Ok?
    ensures WellFormed(f) && Bytes(f) == d[i..Skip(d, i).value]
  {
    var tag := ReadVarint(d, i).value;
    if tag.value % 8 == 3 {
      ReadSlice(d, i);
      var levels := SkippedLevels(d, tag.next, 1);
      assert levels[1..] == [];
      f := GroupField(d[i..tag.next], levels[0].fields, levels[0].endTag);
      JoinSlices(d, i, tag.next, Skip(d, i).value);
    } else {
      var next;
      f, next := SimpleField(d, i, 0);
    }
  }

  /** skipGenerated passes from i to j exactly when the bytes between are one
      well-formed field, groups of any nesting included, whatever the numbers. */
  lemma SkipIffField(d: seq<byte>, i: nat, j: nat)
    ensures Skip(d, i) == Ok(j) <==> i <= j <= |d| && exists f :: WellFormed(f) && Bytes(f) == d[i..j]
  {
    hide WellFormed, Bytes, SkipFrom;
    if Skip(d, i) == Ok(j) {
      var f := SkippedField(d, i);
    }
    if i <= j <= |d| && exists f :: WellFormed(f) && Bytes(f) == d[i..j] {
      var f :| WellFormed(f) && Bytes(f) == d[i..j];
      PassField(d, i, f, 0);
    }
  }

  /** Only the bytes of a field matter to its being skipped. */
  lemma SkipCopy(s: seq<byte>, j: nat, d: seq<byte>, i: nat)
    requires Skip(s, j).Ok? && At(d, i, s[j..Skip(s, j).value])
    ensures Skip(d, i) == Ok(i + (Skip(s, j).value - j))
  {
    var f := SkippedField(s, j);
    PassField(d, i, f, 0);
  }

  function Move(r: Result<nat>, i: nat): Result<nat> {
    match r
    case Ok(n) => Ok(i + n)
    case Err(e) => Err(e)
  }

  function MoveProgress(r: Result<Progress>, i: nat): Result<Progress> {
    match r
    case Ok(p) => Ok(Progress(i + p.next, p.depth))
    case Err(e) => Err(e)
  }

  lemma ScanMoved(d: seq<byte>, i: nat, y: seq<byte>, j: nat, depth: nat)
    requires EndsWith(d, i, y)
    ensures Scan(d, i + j, depth) == MoveProgress(Scan(y, j, depth), i)
  {
    hide ReadVarint;
    ReadVarintMoved(d, i, y, j);
    if ReadVarint(y, j).Ok? {
      ReadVarintMoved(d, i, y, ReadVarint(y, j).value.next);
    }
  }

  lemma {:induction false} SkipMoved(d: seq<byte>, i: nat, y: seq<byte>, j: nat, depth: nat)
    requires EndsWith(d, i, y)
    ensures SkipFrom(d, i + j, depth) == Move(SkipFrom(y, j, depth), i)
    decreases |y| - j
  {
    hide Scan;
    ScanMoved(d, i, y, j, depth);
    var p := Scan(y, j, depth);
    if p.Ok? && p.value.next <= |y| && p.value.depth > 0 {
      SkipMoved(d, i, y, p.value.next, p.value.depth);
    }
  }

  // ------------------------------------------------------------------ the loop

  /** What a call of SkipGenerated on dAtA[i:] tells a caller that compares n with
      the length of its input, as every caller does. */
  predicate SkipOutcome(d: seq<byte>, n: int, err: Option<Error>) {
    match Skip(d, 0)
    case Ok(k) => err.None? && n == k
    case Err(e) =>
      match err
      case Some(actual) => SameError(e, actual)
      case None => e == UnexpectedEOF && |d| < n <= MAX_INT
  }

  /** The wire type's case of the scanner's switch, from the byte after the tag. An
      index that wrapped is negative. */
  predicate ScannedTo(p: Result<Progress>, next: int, after: nat, err: Option<Error>) {
    match p
    case Err(e) => err == Some(e)
    case Ok(p) => err.None? && after == p.depth && next == Signed(p.next, W64)
  }

  method SkipPayload(dAtA: seq<byte>, start: nat, wireType: nat, depth: nat)
    returns (iNdEx: int, after: nat, err: Option<Error>)
    requires start <= |dAtA| <= MAX_INT
    ensures ScannedTo(ScanPayload(wireType, dAtA, start, depth), iNdEx, after, err)
  {
    hide ReadVarint;
    iNdEx, after, err := start, depth, None;
    match wireType {
      case 0 =>
        var ignored;
        ignored, iNdEx, err := DecodeVarint(dAtA, start, W64);
      case 1 =>
        iNdEx := Signed(iNdEx + 8, W64);
      case 2 =>
        var pattern;
        pattern, iNdEx, err := DecodeVarint(dAtA, start, W64);
        if err.None? {
          var length := Signed(pattern, W64);
          if length < 0 {
            err := Some(InvalidLength);
          } else {
            iNdEx := Signed(iNdEx + length, W64);
          }
        }
      case 3 =>
        after := depth + 1;
      case 4 =>
        if depth == 0 {
          err := Some(UnexpectedEndOfGroup);
        } else {
          after := depth - 1;
        }
      case 5 =>
        iNdEx := Signed(iNdEx + 4, W64);
      case _ =>
        err := Some(IllegalWireType);
    }
  }

  /** skipGenerated. It does not check the last field against the end of the input,
      so n may exceed it. */
  method SkipGenerated(dAtA: seq<byte>) returns (n: int, err: Option<Error>)
    requires |dAtA| <= MAX_INT
    ensures SkipOutcome(dAtA, n, err)
  {
    var l := |dAtA|;
    var iNdEx: int := 0;
    var depth: nat := 0;
    while iNdEx < l
      invariant 0 <= iNdEx <= MAX_INT
      invariant iNdEx > 0 ==> depth > 0
      invariant Skip(dAtA, 0) == SkipFrom(dAtA, iNdEx, depth)
    {
      LoopStep(dAtA, iNdEx, depth);
      var wire;
      wire, iNdEx, err := DecodeVarint(dAtA, iNdEx, W64);
      if err.Some? { return 0, err; }
      iNdEx, depth, err := SkipPayload(dAtA, iNdEx, wire % 8, depth);
      if err.Some? { return 0, err; }
      if iNdEx < 0 { return 0, Some(InvalidLength); }
      if depth == 0 { return iNdEx, None; }
    }
    return 0, Some(UnexpectedEOF);
  }

  /** One turn of the loop, in terms of the two reads it makes. */
  lemma LoopStep(d: seq<byte>, i: nat, depth: nat)
    requires i <= |d| <= MAX_INT
    ensures match ReadVarint(d, i)
            case Err(e) => SkipFrom(d, i, depth) == Err(e)
            case Ok(tag) =>
              match ScanPayload(Truncate(tag.value, W64) % 8, d, tag.next, depth)
              case Err(e) => SkipFrom(d, i, depth) == Err(e)
              case Ok(p) =>
                && (p.next > |d| ==> SkipFrom(d, i, depth) == Err(UnexpectedEOF))
                && (p.next <= |d| ==> SkipFrom(d, i, depth) ==
                                      if p.depth == 0 then Ok(p.next) else SkipFrom(d, p.next, p.depth))
                && (Signed(p.next, W64) == p.next <= MAX_INT || (Signed(p.next, W64) < 0 && p.next > |d|))
  {
    var tag := ReadVarint(d, i);
    if tag.Ok? {
      LowThreeBits(tag.value.value);
      var p := ScanPayload(tag.value.value % 8, d, tag.value.next, depth);
      if p.Ok? { IndexWraps(p.value.next); }
    }
  }

  lemma LowThreeBits(x: nat)
    ensures Truncate(x, W64) % 8 == x % 8
  {
  }

  /** The sum of two indices is itself or negative in a 64-bit int. */
  lemma IndexWraps(x: nat)
    requires x <= 2 * MAX_INT
    ensures if x <= MAX_INT then Signed(x, W64) == x else Signed(x, W64) < 0
  {
  }
}
