/** Go strings as byte strings, sort.Strings, and the one sorted listing of a set of
    keys: what makes the encoding of a map independent of its iteration order. */
module SortedKeys {
  import opened Varint

  type Str = seq<byte>

  /** The bytewise lexicographic order of Go strings. */
  predicate LessEq(a: Str, b: Str) {
    a == [] || (b != [] && (a[0] < b[0] || (a[0] == b[0] && LessEq(a[1..], b[1..]))))
  }

  /** a comes first exactly when b begins with it, or it has the smaller byte where the
      two first differ. */
  lemma {:induction false} LessEqIff(a: Str, b: Str)
    ensures LessEq(a, b) <==> a <= b || exists k: nat :: FirstSmaller(a, b, k)
  {
    if a != [] && b != [] && a[0] == b[0] {
      var x, y := a[1..], b[1..];
      LessEqIff(x, y);
      assert a == [a[0]] + x && b == [b[0]] + y;
      assert a <= b <==> x <= y;
      if k: nat :| FirstSmaller(x, y, k) {
        assert a[..k + 1] == [a[0]] + x[..k] && b[..k + 1] == [b[0]] + y[..k];
        assert FirstSmaller(a, b, k + 1);
      }
      if k: nat :| FirstSmaller(a, b, k) {
        assert k > 0;
        assert x[..k - 1] == a[..k][1..] && y[..k - 1] == b[..k][1..];
        assert FirstSmaller(x, y, k - 1);
      }
    } else if a != [] && b != [] {
      if a[0] < b[0] { assert FirstSmaller(a, b, 0); }
      if k: nat :| FirstSmaller(a, b, k) {
        SameFirst(a, b, k);
      }
    }
  }

  lemma SameFirst(a: Str, b: Str, k: nat)
    requires k <= |a| && k <= |b| && a[..k] == b[..k]
    ensures k > 0 ==> a[0] == b[0]
  {
    if k > 0 { assert a[..k][0] == a[0] && b[..k][0] == b[0]; }
  }

  predicate FirstSmaller(a: Str, b: Str, k: nat) {
    k < |a| && k < |b| && a[..k] == b[..k] && a[k] < b[k]
  }

  lemma {:induction false} Total(a: Str, b: Str)
    ensures LessEq(a, b) || LessEq(b, a)
    ensures LessEq(a, b) && LessEq(b, a) ==> a == b
  {
    if a != [] && b != [] && a[0] == b[0] {
      Total(a[1..], b[1..]);
      assert a == [a[0]] + a[1..] && b == [b[0]] + b[1..];
    }
  }

  lemma {:induction false} Transitive(a: Str, b: Str, c: Str)
    requires LessEq(a, b) && LessEq(b, c)
    ensures LessEq(a, c)
  {
    if a != [] && a[0] == b[0] == c[0] { Transitive(a[1..], b[1..], c[1..]); }
  }

  ghost predicate IsLeast(k: Str, ks: set<Str>) {
    k in ks && forall j | j in ks :: LessEq(k, j)
  }

  lemma {:induction false} HasLeast(ks: set<Str>) returns (k: Str)
    requires ks != {}
    ensures IsLeast(k, ks)
    decreases |ks|
  {
    var x :| x in ks;
    Total(x, x);
    if ks == {x} {
      k := x;
    } else {
      assert ks == (ks - {x}) + {x};
      var y := HasLeast(ks - {x});
      Total(x, y);
      if LessEq(x, y) {
        k := x;
        forall j | j in ks ensures LessEq(k, j) {
          if j != x { Transitive(x, y, j); }
        }
      } else {
        k := y;
      }
    }
  }

  lemma LeastIsUnique(a: Str, b: Str, ks: set<Str>)
    requires IsLeast(a, ks) && IsLeast(b, ks)
    ensures a == b
  {
    Total(a, b);
  }

  ghost function Least(ks: set<Str>): (k: Str)
    requires ks != {}
    ensures IsLeast(k, ks)
  {
    assert exists k :: IsLeast(k, ks) by {
      var k := HasLeast(ks);
    }
    var k :| IsLeast(k, ks);
    k
  }

  /** The keys in increasing order. */
  ghost function Listing(ks: set<Str>): (s: seq<Str>)
    ensures |s| == |ks|
  {
    if ks == {} then [] else [Least(ks)] + Listing(ks - {Least(ks)})
  }

  predicate Sorted(s: seq<Str>) {
    forall i, j | 0 <= i < j < |s| :: LessEq(s[i], s[j])
  }

  /** There is only one sorted list of a set without repetitions. */
  lemma {:induction false} SortedIsListing(s: seq<Str>, ks: set<Str>)
    requires Sorted(s) && |s| == |ks| && forall k :: k in s <==> k in ks
    ensures s == Listing(ks)
  {
    if s == [] {
      assert ks == {};
    } else {
      var k, rest := s[0], s[1..];
      Total(k, k);
      assert IsLeast(k, ks);
      LeastIsUnique(k, Least(ks), ks);
      if k in rest {
        assert forall j | j in ks :: j in rest;
        SubsetCard(ks, rest);
        assert false;
      }
      assert forall j :: j in rest <==> j in ks - {k} by {
        assert s == [k] + rest;
      }
      SortedIsListing(rest, ks - {k});
    }
  }

  lemma {:induction false} SubsetCard(ks: set<Str>, s: seq<Str>)
    requires forall k | k in ks :: k in s
    ensures |ks| <= |s|
    decreases |s|
  {
    if s == [] {
      assert ks == {};
    } else {
      forall k | k in ks - {s[0]} ensures k in s[1..] {
        assert k in s;
      }
      SubsetCard(ks - {s[0]}, s[1..]);
    }
  }

  // ------------------------------------------------------------------- programs

  /** sort.Strings, by insertion. */
  method SortStrings(a: seq<Str>) returns (r: seq<Str>)
    ensures Sorted(r) && multiset(r) == multiset(a)
  {
    r := [];
    for i := 0 to |a|
      invariant Sorted(r) && multiset(r) == multiset(a[..i])
    {
      r := Insert(r, a[i]);
      assert a[..i + 1] == a[..i] + [a[i]];
    }
    assert a[..|a|] == a;
  }

  method Insert(s: seq<Str>, x: Str) returns (r: seq<Str>)
    requires Sorted(s)
    ensures Sorted(r) && multiset(r) == multiset(s) + multiset{x}
  {
    var k := 0;
    while k < |s| && LessEq(s[k], x)
      invariant 0 <= k <= |s|
      invariant forall j | 0 <= j < k :: LessEq(s[j], x)
    {
      k := k + 1;
    }
    r := s[..k] + [x] + s[k..];
    assert s == s[..k] + s[k..];
    InsertSorted(s, k, x);
  }

  lemma InsertSorted(s: seq<Str>, k: nat, x: Str)
    requires Sorted(s) && k <= |s|
    requires forall j | 0 <= j < k :: LessEq(s[j], x)
    requires k < |s| ==> !LessEq(s[k], x)
    ensures Sorted(s[..k] + [x] + s[k..])
  {
    var r := s[..k] + [x] + s[k..];
    forall i, j | 0 <= i < j < |r| ensures LessEq(r[i], r[j]) {
      if i == k {
        Total(s[k], x);
        if j > k + 1 { Transitive(x, s[k], s[j - 1]); }
      }
    }
  }

  /** The keys of a map in whatever order they are met, then sorted: the listing. */
  method SortedListing(ks: set<Str>) returns (keys: seq<Str>)
    ensures keys == Listing(ks)
  {
    var met: seq<Str> := [];
    var todo := ks;
    while todo != {}
      invariant todo <= ks && |met| == |ks| - |todo|
      invariant forall k :: k in met <==> k in ks - todo
      decreases |todo|
    {
      var k :| k in todo;
      met := met + [k];
      todo := todo - {k};
    }
    keys := SortStrings(met);
    SameElements(keys, met);
    SortedIsListing(keys, ks);
  }

  lemma SameElements(a: seq<Str>, b: seq<Str>)
    requires multiset(a) == multiset(b)
    ensures |a| == |b| && forall k :: k in a <==> k in b
  {
    assert |multiset(a)| == |a| && |multiset(b)| == |b|;
    assert forall k :: k in a <==> k in multiset(a);
    assert forall k :: k in b <==> k in multiset(b);
  }
}
