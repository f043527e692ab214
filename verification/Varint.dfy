/** Base-128 varints: the decode loops, encodeVarintGenerated and sovGenerated of
    generated.pb.go, against a recursive reading of the Protocol Buffers
    "Base 128 Varints" section. */
module Varint {
  import opened Common

  type byte = b: int | 0 <= b < 256

  /** The widths the program accumulates varints in: int32, and uint64 or int. */
  datatype Width = W32 | W64

  const TWO_TO_64 := 0x1_0000_0000_0000_0000

  /** The low bits of x: what is left of it in a pattern of width w. */
  function Truncate(x: int, w: Width): nat {
    match w
    case W32 => x % 0x1_0000_0000
    case W64 => x % 0x1_0000_0000_0000_0000
  }

  /** The signed value of the low bits of x, as Go converts or wraps it. */
  function Signed(x: int, w: Width): int {
    var r := Truncate(x, w);
    match w
    case W32 => if r < 0x8000_0000 then r else r - 0x1_0000_0000
    case W64 => if r < 0x8000_0000_0000_0000 then r else r - 0x1_0000_0000_0000_0000
  }

  /** The largest int of a 64-bit Go program, which bounds every slice length. */
  const MAX_INT: int := 0x7fff_ffff_ffff_ffff

  /** c shifted left by s bits, nothing lost. */
  function Shl(c: nat, s: nat): nat {
    if s == 0 then c else 2 * Shl(c, s - 1)
  }

  /** Go's `|` on bit patterns. */
  function BitOr(x: nat, y: nat): nat {
    if x == 0 && y == 0 then 0
    else (if x % 2 == 1 || y % 2 == 1 then 1 else 0) + 2 * BitOr(x / 2, y / 2)
  }

  /** The n low bits of x: what a register of n bits keeps of it. */
  function Low(x: nat, n: nat): nat {
    if n == 0 then 0 else x % 2 + 2 * Low(x / 2, n - 1)
  }

  /** math/bits.Len64: the number of bits needed to write x. */
  function BitLen(x: nat): nat {
    if x == 0 then 0 else 1 + BitLen(x / 2)
  }

  // ---------------------------------------------------------------- the format

  datatype Varint = Varint(value: nat, next: nat)

  /** The varint at index i of d and the index after it: seven bits a byte, least
      significant first, the high bit saying that more follow, and at most `budget`
      bytes. The value is not truncated. */
  function ReadVarint(d: seq<byte>, i: nat, budget: nat := 10): (r: Result<Varint>)
    ensures r.Ok? ==> i < r.value.next <= |d| && r.value.next <= i + budget
    decreases |d| - i
  {
    if budget == 0 then Err(IntOverflow)
    else if i >= |d| then Err(UnexpectedEOF)
    else if d[i] < 128 then Ok(Varint(d[i], i + 1))
    else
      var v :- ReadVarint(d, i + 1, budget - 1);
      Ok(Varint(d[i] - 128 + 128 * v.value, v.next))
  }

  function EncodeVarint(v: nat): (s: seq<byte>)
    ensures |s| >= 1
  {
    if v < 128 then [v] else [128 + v % 128] + EncodeVarint(v / 128)
  }

  /** sovGenerated: how many bytes a varint takes, from its bit length. */
  function Sov(x: nat): nat {
    (BitLen(BitOr(x, 1)) + 6) / 7
  }

  /** int32 and int values are written as uint64, sign-extended. */
  function AsUint64(v: int): (u: int)
    requires -0x8000_0000_0000_0000 <= v <= MAX_INT
    ensures 0 <= u < TWO_TO_64
  {
    if v < 0 then v + TWO_TO_64 else v
  }

  // ------------------------------------------------------------ bit arithmetic

  lemma BitOrZero(x: nat)
    ensures BitOr(x, 0) == x && BitOr(0, x) == x
  {
    if x != 0 { BitOrZero(x / 2); }
  }

  lemma {:induction false} ShlAdd(a: nat, b: nat, s: nat)
    ensures Shl(a + b, s) == Shl(a, s) + Shl(b, s)
  {
    if s > 0 { ShlAdd(a, b, s - 1); }
  }

  lemma {:induction false} ShlShl(c: nat, s: nat, t: nat)
    ensures Shl(Shl(c, s), t) == Shl(c, s + t)
  {
    if t > 0 { ShlShl(c, s, t - 1); }
  }

  lemma {:induction false} ShlMonotone(a: nat, b: nat, s: nat)
    ensures a < b ==> Shl(a, s) + Shl(1, s) <= Shl(b, s)
    ensures a <= Shl(a, s)
  {
    if s > 0 { ShlMonotone(a, b, s - 1); }
  }

  /** Shifting by seven bits, a byte, or a whole register is multiplication. */
  lemma ShlIsProduct(c: nat, n: nat)
    ensures n == 7 ==> Shl(c, n) == 128 * c
    ensures n == 8 ==> Shl(c, n) == 256 * c
    ensures n == 16 ==> Shl(c, n) == 0x1_0000 * c
    ensures n == 32 ==> Shl(c, n) == 0x1_0000_0000 * c
    ensures n == 64 ==> Shl(c, n) == TWO_TO_64 * c
    decreases n
  {
    if n == 7 {
      assert Shl(c, n - 6) == 2 * c;
      assert Shl(c, n - 4) == 8 * c;
      assert Shl(c, n - 2) == 32 * c;
    } else if n == 8 {
      ShlIsProduct(c, n - 1);
    } else if n == 16 || n == 32 || n == 64 {
      ShlIsProduct(c, n / 2);
      ShlIsProduct(Shl(c, n / 2), n / 2);
      ShlShl(c, n / 2, n / 2);
    }
  }

  function Bits(w: Width): nat {
    match w
    case W32 => 32
    case W64 => 64
  }

  /** OR-ing a number with one whose set bits all lie above it is addition, in any
      number of bits: the bits shifted out are lost on both sides. */
  lemma {:induction false} BitOrDisjoint(a: nat, c: nat, s: nat, n: nat)
    requires a < Shl(1, s)
    ensures BitOr(Low(a, n), Low(Shl(c, s), n)) == Low(a + Shl(c, s), n)
  {
    hide BitOr, Low;
    LowOfNone(a, Shl(c, s));
    if n > 0 {
      if s == 0 {
        LowOfZero(n);
        BitOrZero(Low(c, n));
      } else {
        var h := Shl(c, s - 1);
        BitOrDisjoint(a / 2, c, s - 1, n - 1);
        LowHalves(0, h, n);
        LowHalves(a % 2, a / 2, n);
        LowHalves(a % 2, a / 2 + h, n);
        BitOrHalves(a % 2, Low(a / 2, n - 1), Low(h, n - 1));
      }
    } else {
      BitOrZero(0);
    }
  }

  lemma LowOfNone(x: nat, y: nat)
    ensures Low(x, 0) == Low(y, 0) == Low(x + y, 0) == 0
  {
  }

  lemma LowHalves(b: nat, x: nat, n: nat)
    requires b < 2 && n > 0
    ensures Low(b + 2 * x, n) == b + 2 * Low(x, n - 1)
  {
    assert (b + 2 * x) / 2 == x && (b + 2 * x) % 2 == b;
  }

  lemma BitOrHalves(b: nat, x: nat, y: nat)
    requires b < 2
    ensures BitOr(b + 2 * x, 2 * y) == b + 2 * BitOr(x, y)
  {
    assert (b + 2 * x) / 2 == x && (b + 2 * x) % 2 == b;
    assert (2 * y) / 2 == y && (2 * y) % 2 == 0;
  }

  lemma {:induction false} LowOfZero(n: nat)
    ensures Low(0, n) == 0
  {
    if n > 0 { LowOfZero(n - 1); }
  }

  lemma {:induction false} LowRemainder(x: nat, n: nat) returns (high: nat)
    ensures x == Shl(high, n) + Low(x, n) && Low(x, n) < Shl(1, n)
  {
    if n == 0 {
      high := x;
    } else {
      high := LowRemainder(x / 2, n - 1);
    }
  }

  lemma LowIsTruncate(x: nat, w: Width)
    ensures Low(x, Bits(w)) == Truncate(x, w)
  {
    var n := Bits(w);
    var high := LowRemainder(x, n);
    ShlIsProduct(high, n);
    ShlIsProduct(1, n);
    match w
    case W32 => RemainderOf32(x, high, Low(x, n));
    case W64 => RemainderOf64(x, high, Low(x, n));
  }

  lemma RemainderOf32(x: nat, high: nat, low: nat)
    requires x == 0x1_0000_0000 * high + low && low < 0x1_0000_0000
    ensures x % 0x1_0000_0000 == low
  {
  }

  lemma RemainderOf64(x: nat, high: nat, low: nat)
    requires x == TWO_TO_64 * high + low && low < TWO_TO_64
    ensures x % 0x1_0000_0000_0000_0000 == low
  {
  }

  // ------------------------------------------------------------------- decoding

  /** What the whole read amounts to, once the bytes before the tail have been
      accumulated into acc and the rest of the input reads as `tail`. */
  ghost function Resume(acc: nat, shift: nat, tail: Result<Varint>): Result<Varint> {
    match tail
    case Ok(t) => Ok(Varint(acc + Shl(t.value, shift), t.next))
    case Err(e) => Err(e)
  }

  /** Go's `v |= T(b&0x7F) << shift` in a variable of width w. */
  function Accumulate(v: nat, b: byte, shift: nat, w: Width): nat {
    BitOr(v, Low(Shl(b % 128, shift), Bits(w)))
  }

  lemma AccumulateStep(acc: nat, b: byte, shift: nat, w: Width)
    requires acc < Shl(1, shift)
    ensures Accumulate(Low(acc, Bits(w)), b, shift, w) == Low(acc + Shl(b % 128, shift), Bits(w))
    ensures Low(acc + Shl(b % 128, shift), Bits(w)) == Truncate(acc + Shl(b % 128, shift), w)
  {
    BitOrDisjoint(acc, b % 128, shift, Bits(w));
    LowIsTruncate(acc + Shl(b % 128, shift), w);
  }

  lemma ResumeStep(d: seq<byte>, i: nat, acc: nat, shift: nat, budget: nat)
    requires i < |d| && 0 < budget && acc < Shl(1, shift)
    ensures acc + Shl(d[i] % 128, shift) < Shl(1, shift + 7)
    ensures Resume(acc, shift, ReadVarint(d, i, budget)) ==
            if d[i] < 128 then Ok(Varint(acc + Shl(d[i] % 128, shift), i + 1))
            else Resume(acc + Shl(d[i] % 128, shift), shift + 7, ReadVarint(d, i + 1, budget - 1))
  {
    var c := d[i] % 128;
    ShlIsProduct(1, 7);
    ShlShl(1, 7, shift);
    ShlMonotone(c, 128, shift);
    var tail := ReadVarint(d, i + 1, budget - 1);
    if d[i] >= 128 && tail.Ok? {
      var t := tail.value.value;
      ShlIsProduct(t, 7);
      ShlShl(t, 7, shift);
      ShlAdd(c, 128 * t, shift);
    }
  }

  /** Where the read stops short, and where it starts. */
  lemma ResumeEnds(d: seq<byte>, i: nat, budget: nat)
    ensures budget == 0 ==> ReadVarint(d, i, budget) == Err(IntOverflow)
    ensures budget > 0 && i >= |d| ==> ReadVarint(d, i, budget) == Err(UnexpectedEOF)
    ensures Resume(0, 0, ReadVarint(d, i, budget)) == ReadVarint(d, i, budget)
    ensures 0 < Shl(1, 0)
  {
  }

  /** The varint loop that every decoder repeats: `shift` grows by seven, the
      result is OR-ed together in the bit pattern of its width. */
  method DecodeVarint(dAtA: seq<byte>, start: nat, w: Width) returns (v: nat, iNdEx: nat, err: Option<Error>)
    requires start <= |dAtA|
    ensures match ReadVarint(dAtA, start)
            case Ok(r) => err.None? && iNdEx == r.next && v == Truncate(r.value, w)
            case Err(e) => err == Some(e)
  {
    hide ReadVarint, Low, Shl, Truncate;
    v, iNdEx, err := 0, start, None;
    LowOfZero(Bits(w));
    ResumeEnds(dAtA, start, 10);
    var shift := 0;
    ghost var acc: nat := 0;
    while true
      invariant start <= iNdEx <= |dAtA|
      invariant shift == 7 * (iNdEx - start) && iNdEx - start <= 10
      invariant acc < Shl(1, shift) && v == Low(acc, Bits(w))
      invariant ReadVarint(dAtA, start) == Resume(acc, shift, ReadVarint(dAtA, iNdEx, 10 - (iNdEx - start)))
      decreases 70 - shift
    {
      ResumeEnds(dAtA, iNdEx, 10 - (iNdEx - start));
      if shift >= 64 { return v, iNdEx, Some(IntOverflow); }
      if iNdEx >= |dAtA| { return v, iNdEx, Some(UnexpectedEOF); }
      var b := dAtA[iNdEx];
      ResumeStep(dAtA, iNdEx, acc, shift, 10 - (iNdEx - start));
      AccumulateStep(acc, b, shift, w);
      acc := acc + Shl(b % 128, shift);
      iNdEx := iNdEx + 1;
      v := Accumulate(v, b, shift, w);
      if b < 128 { return; }
      shift := shift + 7;
    }
  }

  // ------------------------------------------------------------ pieces of inputs

  // --------------------------------------------------- varints, without recursion

  /** Bytes from i to next that all say that more follow. */
  predicate Continued(d: seq<byte>, i: nat, next: nat) {
    next <= |d| && forall k | i <= k < next :: d[k] >= 128
  }

  /** The value of the digits from i to next, least significant first. */
  function Digits(d: seq<byte>, i: nat, next: nat): nat
    requires next <= |d|
    decreases next - i
  {
    if i >= next then 0 else d[i] % 128 + 128 * Digits(d, i + 1, next)
  }

  predicate Spelled(d: seq<byte>, i: nat, budget: nat, v: Varint) {
    && i < v.next <= |d| && v.next - i <= budget
    && Continued(d, i, v.next - 1) && d[v.next - 1] < 128
    && v.value == Digits(d, i, v.next)
  }

  /** A varint is read exactly if a byte without the high bit comes within ten; there is
      an overflow exactly if ten come with it, and the input is too short otherwise. */
  lemma VarintOfTen(d: seq<byte>, i: nat)
    requires i <= |d|
    ensures ReadVarint(d, i).Ok? ==> Spelled(d, i, 10, ReadVarint(d, i).value)
    ensures ReadVarint(d, i) == Err(IntOverflow) ==> Continued(d, i, i + 10)
    ensures ReadVarint(d, i).Err? && ReadVarint(d, i) != Err(IntOverflow) ==> ReadVarint(d, i) == Err(UnexpectedEOF) && |d| < i + 10 && Continued(d, i, |d|)
  {
    hide ReadVarint;
    VarintOutcome(d, i, 10);
  }

  lemma {:induction false} VarintOutcome(d: seq<byte>, i: nat, budget: nat)
    requires i <= |d|
    ensures ReadVarint(d, i, budget).Ok? ==> Spelled(d, i, budget, ReadVarint(d, i, budget).value)
    ensures ReadVarint(d, i, budget) == Err(IntOverflow) ==> Continued(d, i, i + budget)
    ensures ReadVarint(d, i, budget).Err? && ReadVarint(d, i, budget) != Err(IntOverflow) ==> ReadVarint(d, i, budget) == Err(UnexpectedEOF) && |d| < i + budget && Continued(d, i, |d|)
    decreases budget
  {
    if budget > 0 && i < |d| && d[i] >= 128 {
      VarintOutcome(d, i + 1, budget - 1);
    }
  }


  /** s occurs in d at index i. */
  predicate At(d: seq<byte>, i: nat, s: seq<byte>) {
    i + |s| <= |d| && d[i..i + |s|] == s
  }

  lemma AtConcat(d: seq<byte>, i: nat, s: seq<byte>, t: seq<byte>)
    ensures At(d, i, s + t) <==> At(d, i, s) && At(d, i + |s|, t)
  {
    if At(d, i, s + t) {
      assert d[i..i + |s|] == (s + t)[..|s|] == s;
      assert d[i + |s|..i + |s| + |t|] == (s + t)[|s|..] == t;
    }
    if At(d, i, s) && At(d, i + |s|, t) {
      assert d[i..i + |s + t|] == d[i..i + |s|] + d[i + |s|..i + |s| + |t|];
    }
  }

  lemma AtHead(d: seq<byte>, i: nat, s: seq<byte>)
    requires At(d, i, s) && s != []
    ensures d[i] == s[0] && At(d, i + 1, s[1..])
  {
    assert d[i] == d[i..i + |s|][0];
    assert d[i + 1..i + |s|] == s[1..];
  }

  /** Only the bytes of a varint matter to its reading, not what stands around it. */
  lemma {:induction false} ReadVarintCopy(s: seq<byte>, j: nat, d: seq<byte>, i: nat, budget: nat := 10)
    requires ReadVarint(s, j, budget).Ok? && At(d, i, s[j..ReadVarint(s, j, budget).value.next])
    ensures var r := ReadVarint(s, j, budget).value;
            ReadVarint(d, i, budget) == Ok(Varint(r.value, i + (r.next - j)))
    decreases budget
  {
    var next := ReadVarint(s, j, budget).value.next;
    AtHead(d, i, s[j..next]);
    if s[j] >= 128 {
      assert s[j..next][1..] == s[j + 1..next];
      ReadVarintCopy(s, j + 1, d, i + 1, budget - 1);
    }
  }

  /** d ends with y, from index i on. */
  predicate EndsWith(d: seq<byte>, i: nat, y: seq<byte>) {
    |d| == i + |y| && At(d, i, y)
  }

  lemma EndsWithByte(d: seq<byte>, i: nat, y: seq<byte>, j: nat)
    requires EndsWith(d, i, y) && j < |y|
    ensures d[i + j] == y[j]
  {
    assert d[i + j] == d[i..i + |y|][j];
  }

  function MoveVarint(r: Result<Varint>, i: nat): Result<Varint> {
    match r
    case Ok(v) => Ok(Varint(v.value, i + v.next))
    case Err(e) => Err(e)
  }

  /** A varint reads the same, failures included, when all that changes is what
      stands before it. */
  lemma {:induction false} ReadVarintMoved(d: seq<byte>, i: nat, y: seq<byte>, j: nat, budget: nat := 10)
    requires EndsWith(d, i, y)
    ensures ReadVarint(d, i + j, budget) == MoveVarint(ReadVarint(y, j, budget), i)
    decreases budget
  {
    if budget > 0 && j < |y| {
      EndsWithByte(d, i, y, j);
      ReadVarintMoved(d, i, y, j + 1, budget - 1);
    }
  }

  // ------------------------------------------------------------------- encoding

  /** Reading back what was written, wherever it stands, within the number of bytes
      that the number of bits needs. */
  lemma {:induction false} ReadEncoded(d: seq<byte>, i: nat, v: nat, bits: nat, budget: nat)
    requires v < Shl(1, bits) && bits <= 7 * budget && budget > 0
    decreases v
    ensures |EncodeVarint(v)| <= budget
    ensures At(d, i, EncodeVarint(v)) ==> ReadVarint(d, i, budget) == Ok(Varint(v, i + |EncodeVarint(v)|))
  {
    if At(d, i, EncodeVarint(v)) { AtHead(d, i, EncodeVarint(v)); }
    if v >= 128 {
      ShlIsProduct(1, 7);
      if bits <= 7 {
        ShlShl(1, bits, 7 - bits);
        ShlMonotone(Shl(1, bits), 0, 7 - bits);
        assert false;
      }
      ShlShl(1, bits - 7, 7);
      ShlIsProduct(Shl(1, bits - 7), 7);
      ReadEncoded(d, i + 1, v / 128, bits - 7, budget - 1);
      assert EncodeVarint(v)[1..] == EncodeVarint(v / 128);
    }
  }

  lemma ReadEncodedUint64(d: seq<byte>, i: nat, v: nat)
    requires v < TWO_TO_64
    ensures |EncodeVarint(v)| <= 10
    ensures At(d, i, EncodeVarint(v)) ==> ReadVarint(d, i) == Ok(Varint(v, i + |EncodeVarint(v)|))
  {
    ShlIsProduct(1, 64);
    ReadEncoded(d, i, v, 64, 10);
  }

  lemma {:induction false} BitLenChunk(x: nat)
    requires x >= 128
    ensures BitLen(x) == 7 + BitLen(x / 128)
  {
    hide BitLen;
    BitLenHalf(x, x / 2);
    BitLenHalf(x / 2, x / 4);
    BitLenHalf(x / 4, x / 8);
    BitLenHalf(x / 8, x / 16);
    BitLenHalf(x / 16, x / 32);
    BitLenHalf(x / 32, x / 64);
    BitLenHalf(x / 64, x / 128);
  }

  lemma BitLenHalf(x: nat, half: nat)
    requires x > 0 && x / 2 == half
    ensures BitLen(x) == 1 + BitLen(half)
  {
  }

  /** The bit-length formula counts base-128 digits, and there are 1 to 10. */
  lemma {:induction false} SovCountsDigits(x: nat)
    ensures Sov(x) == |EncodeVarint(x)|
    ensures x < TWO_TO_64 ==> 1 <= Sov(x) <= 10
  {
    if x >= 128 {
      SovCountsDigits(x / 128);
      LenOfOdd(x);
      LenOfOdd(x / 128);
      BitLenChunk(x);
    } else {
      BitOrOne(x);
      ShlIsProduct(1, 7);
      BitLenSmall(BitOr(x, 1), 7);
    }
    if x < TWO_TO_64 { ReadEncodedUint64([], 0, x); }
  }

  lemma BitOrOne(x: nat)
    ensures BitOr(x, 1) == 1 + 2 * (x / 2)
  {
    BitOrZero(x / 2);
  }

  lemma LenOfOdd(x: nat)
    requires x > 0
    ensures BitLen(BitOr(x, 1)) == BitLen(x)
  {
    BitOrOne(x);
  }

  lemma {:induction false} BitLenSmall(x: nat, n: nat)
    requires 0 < x < Shl(1, n)
    ensures 1 <= BitLen(x) <= n
  {
    if x > 1 { BitLenSmall(x / 2, n - 1); }
  }

  /** What `before` becomes when `bytes` are written over it from index lo. */
  function Splice(before: seq<byte>, lo: nat, bytes: seq<byte>): seq<byte>
    requires lo + |bytes| <= |before|
  {
    before[..lo] + bytes + before[lo + |bytes|..]
  }

  /** Writing y just in front of x leaves y followed by x. */
  lemma SplicePrepend(before: seq<byte>, lo: nat, x: seq<byte>, y: seq<byte>)
    requires |y| <= lo && lo + |x| <= |before|
    ensures Splice(Splice(before, lo, x), lo - |y|, y) == Splice(before, lo - |y|, y + x)
  {
  }

  /** Writing one more byte after what was spliced in. */
  lemma SpliceAppend(before: seq<byte>, lo: nat, x: seq<byte>, b: byte)
    requires lo + |x| < |before|
    ensures Splice(before, lo, x)[lo + |x| := b] == Splice(before, lo, x + [b])
  {
  }

  lemma MarkContinued(v: nat)
    ensures BitOr(v % 128, 128) == 128 + v % 128
  {
    BitOrHigh(v % 128, 7);
    ShlIsProduct(1, 7);
  }

  lemma {:induction false} BitOrHigh(c: nat, s: nat)
    requires c < Shl(1, s)
    ensures BitOr(c, Shl(1, s)) == c + Shl(1, s)
  {
    if s == 0 {
      BitOrZero(1);
    } else {
      BitOrHigh(c / 2, s - 1);
      BitOrHalves(c % 2, c / 2, Shl(1, s - 1));
    }
  }

  /** encodeVarintGenerated: the varint of v fills exactly the bytes before offset. */
  method EncodeVarintGenerated(dAtA: array<byte>, offset: nat, v: nat) returns (base: nat)
    requires v < TWO_TO_64 && Sov(v) <= offset <= dAtA.Length
    modifies dAtA
    ensures base == offset - |EncodeVarint(v)|
    ensures dAtA[..] == Splice(old(dAtA[..]), base, EncodeVarint(v))
  {
    SovCountsDigits(v);
    var i := offset - Sov(v);
    base := i;
    var rest := v;
    ghost var was: seq<byte>, written: seq<byte> := dAtA[..], [];
    while rest >= 128
      invariant i == base + |written| && i + |EncodeVarint(rest)| == offset
      invariant dAtA[..] == Splice(was, base, written)
      invariant EncodeVarint(v) == written + EncodeVarint(rest)
    {
      MarkContinued(rest);
      ghost var b: byte := 128 + rest % 128;
      SpliceAppend(was, base, written, b);
      AppendAssociates(written, b, EncodeVarint(rest / 128));
      dAtA[i] := BitOr(rest % 128, 128);
      written := written + [b];
      rest := rest / 128;
      i := i + 1;
    }
    SpliceAppend(was, base, written, rest);
    dAtA[i] := rest;
  }

  lemma AppendAssociates(x: seq<byte>, b: byte, y: seq<byte>)
    ensures x + [b] + y == x + ([b] + y)
  {
  }

  /** An int32, sign-extended to uint64 and written as a varint, comes back from
      the int32 accumulator; a negative one takes ten bytes. */
  lemma Int32RoundTrip(d: seq<byte>, i: nat, v: int)
    requires -0x8000_0000 <= v < 0x8000_0000
    requires At(d, i, EncodeVarint(AsUint64(v)))
    ensures var r := ReadVarint(d, i);
            r.Ok? && r.value.next == i + |EncodeVarint(AsUint64(v))| && Signed(r.value.value, W32) == v
    ensures v < 0 ==> |EncodeVarint(AsUint64(v))| == 10
  {
    ReadEncodedUint64(d, i, AsUint64(v));
    ShlIsProduct(1, 64);
    if v < 0 { LongVarint(AsUint64(v), 9, 64); }
  }

  lemma {:induction false} LongVarint(v: nat, k: nat, bits: nat)
    requires bits == 7 * k + 1 && 2 * v >= Shl(1, bits)
    ensures |EncodeVarint(v)| > k
  {
    if k > 0 {
      ShlShl(1, bits - 7, 7);
      ShlIsProduct(Shl(1, bits - 7), 7);
      LongVarint(v / 128, k - 1, bits - 7);
    }
  }
}
