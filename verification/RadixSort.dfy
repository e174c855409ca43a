/** tdefl_radix_sort_syms: a two-pass stable distribution sort by 16-bit keys. */
module RadixSort {

  datatype SymFreq = SymFreq(key: nat, sym: nat)

  function Digit(x: SymFreq, pass: nat): (d: nat)
    ensures d < 256
  {
    if pass == 0 then x.key % 256 else (x.key / 256) % 256
  }

  /** The elements with digit d, in their order. */
  function Filter(s: seq<SymFreq>, pass: nat, d: nat): seq<SymFreq> {
    if s == [] then [] else
      var r := Filter(s[..|s| - 1], pass, d);
      if Digit(s[|s| - 1], pass) == d then r + [s[|s| - 1]] else r
  }

  /** The elements with digits below n, by digit and then by their order. */
  function Buckets(s: seq<SymFreq>, pass: nat, n: nat): seq<SymFreq> {
    if n == 0 then [] else Buckets(s, pass, n - 1) + Filter(s, pass, n - 1)
  }

  lemma FilterSnoc(s: seq<SymFreq>, x: SymFreq, pass: nat, d: nat)
    ensures Filter(s + [x], pass, d) == Filter(s, pass, d) + if Digit(x, pass) == d then [x] else []
  {
    assert (s + [x])[..|s|] == s;
  }

  /** A further element goes to the end of its bucket. */
  lemma {:induction false} BucketsSnoc(s: seq<SymFreq>, x: SymFreq, pass: nat, n: nat)
    returns (a: seq<SymFreq>, b: seq<SymFreq>)
    ensures Buckets(s, pass, n) == a + b
    ensures Buckets(s + [x], pass, n) == a + (if Digit(x, pass) < n then [x] else []) + b
  {
    hide Digit, Filter;
    if n == 0 {
      a, b := [], [];
    } else {
      var a0, b0 := BucketsSnoc(s, x, pass, n - 1);
      FilterSnoc(s, x, pass, n - 1);
      var f := Filter(s, pass, n - 1);
      var none: seq<SymFreq> := [];
      if Digit(x, pass) == n - 1 {
        a, b := a0 + b0 + f, [];
        assert a0 + none + b0 == a0 + b0;
        assert (a0 + b0) + (f + [x]) == a + [x] + b;
        assert a0 + b0 + f == a + b;
      } else {
        a, b := a0, b0 + f;
        var mid := if Digit(x, pass) < n - 1 then [x] else none;
        assert f + none == f;
        assert (a0 + mid + b0) + f == a + mid + b;
        assert (a0 + b0) + f == a + b;
      }
    }
  }

  /** Distribution rearranges the elements. */
  lemma {:induction false} BucketsPermutation(s: seq<SymFreq>, pass: nat)
    ensures multiset(Buckets(s, pass, 256)) == multiset(s)
    ensures |Buckets(s, pass, 256)| == |s|
  {
    if s == [] {
      EmptyBuckets(pass, 256);
    } else {
      hide Buckets;
      var r, x := s[..|s| - 1], s[|s| - 1];
      BucketsPermutation(r, pass);
      var a, b := BucketsSnoc(r, x, pass, 256);
      assert s == r + [x];
      assert multiset(a + [x] + b) == multiset(a + b) + multiset{x};
    }
  }

  lemma {:induction false} EmptyBuckets(pass: nat, n: nat)
    ensures Buckets([], pass, n) == []
  {
    if n > 0 { EmptyBuckets(pass, n - 1); }
  }

  lemma {:induction false} FilterConcat(a: seq<SymFreq>, b: seq<SymFreq>, pass: nat, d: nat)
    ensures Filter(a + b, pass, d) == Filter(a, pass, d) + Filter(b, pass, d)
    decreases |b|
  {
    hide Digit;
    if b == [] {
      assert a + b == a;
    } else {
      var c, x := b[..|b| - 1], b[|b| - 1];
      assert b == c + [x];
      assert a + b == (a + c) + [x];
      FilterConcat(a, c, pass, d);
      FilterSnoc(a + c, x, pass, d);
      FilterSnoc(c, x, pass, d);
    }
  }

  /** Distribution by one digit keeps the count of every value of the other. */
  lemma {:induction false} BucketsCount(s: seq<SymFreq>, pass: nat, other: nat, d: nat)
    ensures |Filter(Buckets(s, pass, 256), other, d)| == |Filter(s, other, d)|
  {
    if s == [] {
      EmptyBuckets(pass, 256);
    } else {
      hide Buckets, Filter, Digit;
      var r, x := s[..|s| - 1], s[|s| - 1];
      BucketsCount(r, pass, other, d);
      assert Digit(x, pass) < 256 by { DigitBound(x, pass); }
      var a, b := BucketsSnoc(r, x, pass, 256);
      assert s == r + [x];
      FilterSnoc(r, x, other, d);
      FilterConcat(a, b, other, d);
      FilterConcat(a + [x], b, other, d);
      FilterSnoc(a, x, other, d);
    }
  }

  lemma DigitBound(x: SymFreq, pass: nat)
    ensures Digit(x, pass) < 256
  {
  }

  function KeyTotal(s: seq<SymFreq>): nat {
    if s == [] then 0 else KeyTotal(s[..|s| - 1]) + s[|s| - 1].key
  }

  lemma {:induction false} KeyTotalConcat(a: seq<SymFreq>, b: seq<SymFreq>)
    ensures KeyTotal(a + b) == KeyTotal(a) + KeyTotal(b)
    decreases |b|
  {
    if b == [] {
      assert a + b == a;
    } else {
      assert (a + b)[..|a + b| - 1] == a + b[..|b| - 1];
      KeyTotalConcat(a, b[..|b| - 1]);
    }
  }

  lemma {:induction false} BucketsTotal(s: seq<SymFreq>, pass: nat)
    ensures KeyTotal(Buckets(s, pass, 256)) == KeyTotal(s)
  {
    if s == [] {
      EmptyBuckets(pass, 256);
    } else {
      hide Buckets, Digit;
      var r, x := s[..|s| - 1], s[|s| - 1];
      BucketsTotal(r, pass);
      DigitBound(x, pass);
      var a, b := BucketsSnoc(r, x, pass, 256);
      assert s == r + [x];
      KeyTotalConcat(a, b);
      KeyTotalConcat(a + [x], b);
      KeyTotalConcat(a, [x]);
      assert KeyTotal([x]) == x.key;
    }
  }

  // ---- order

  ghost predicate LowSorted(s: seq<SymFreq>) {
    forall i, j :: 0 <= i <= j < |s| ==> Digit(s[i], 0) <= Digit(s[j], 0)
  }

  ghost predicate KeySorted(s: seq<SymFreq>) {
    forall i, j :: 0 <= i <= j < |s| ==> s[i].key <= s[j].key
  }

  lemma {:induction false} FilterElements(s: seq<SymFreq>, pass: nat, d: nat)
    ensures forall i :: 0 <= i < |Filter(s, pass, d)| ==>
              Digit(Filter(s, pass, d)[i], pass) == d && Filter(s, pass, d)[i] in s
  {
    if s != [] {
      FilterElements(s[..|s| - 1], pass, d);
    }
  }

  lemma {:induction false} FilterLowSorted(s: seq<SymFreq>, pass: nat, d: nat)
    requires LowSorted(s)
    ensures LowSorted(Filter(s, pass, d))
  {
    hide Digit;
    if s != [] {
      var r := s[..|s| - 1];
      FilterLowSorted(r, pass, d);
      FilterElements(r, pass, d);
    }
  }

  lemma {:induction false} BucketsDigits(s: seq<SymFreq>, pass: nat, n: nat)
    ensures forall i :: 0 <= i < |Buckets(s, pass, n)| ==>
              Digit(Buckets(s, pass, n)[i], pass) < n && Buckets(s, pass, n)[i] in s
  {
    hide Digit;
    if n > 0 {
      BucketsDigits(s, pass, n - 1);
      FilterElements(s, pass, n - 1);
    }
  }

  lemma {:induction false} FirstPassSorts(s: seq<SymFreq>, n: nat)
    ensures LowSorted(Buckets(s, 0, n))
  {
    hide Digit;
    if n > 0 {
      FirstPassSorts(s, n - 1);
      BucketsDigits(s, 0, n - 1);
      FilterElements(s, 0, n - 1);
    }
  }

  ghost predicate SmallKeys(s: seq<SymFreq>) {
    forall i :: 0 <= i < |s| ==> s[i].key < 65536
  }

  lemma KeyOrder(x: SymFreq, y: SymFreq)
    requires x.key < 65536 && y.key < 65536
    requires Digit(x, 1) < Digit(y, 1) || (Digit(x, 1) == Digit(y, 1) && Digit(x, 0) <= Digit(y, 0))
    ensures x.key <= y.key
  {
    assert x.key == 256 * (x.key / 256) + x.key % 256;
    assert y.key == 256 * (y.key / 256) + y.key % 256;
  }

  /** The second pass sorts by the high digit and keeps the order of the first within it. */
  lemma {:induction false} SecondPassSorts(s: seq<SymFreq>, n: nat)
    requires LowSorted(s) && SmallKeys(s)
    ensures KeySorted(Buckets(s, 1, n))
  {
    hide Digit;
    if n > 0 {
      SecondPassSorts(s, n - 1);
      BucketsDigits(s, 1, n - 1);
      FilterElements(s, 1, n - 1);
      FilterLowSorted(s, 1, n - 1);
      var a: seq<SymFreq> := Buckets(s, 1, n - 1);
      var c: seq<SymFreq> := a + Filter(s, 1, n - 1);
      forall i, j | 0 <= i <= j < |c|
        ensures c[i].key <= c[j].key
      {
        if j >= |a| {
          KeyOrder(c[i], c[j]);
        }
      }
    }
  }

  /** Without high digits one pass is enough. */
  lemma OnePassSorts(s: seq<SymFreq>)
    requires LowSorted(s) && SmallKeys(s) && |Filter(s, 1, 0)| == |s|
    ensures KeySorted(s)
  {
    AllInFilter(s, 1, 0);
    forall i, j | 0 <= i <= j < |s|
      ensures s[i].key <= s[j].key
    {
      KeyOrder(s[i], s[j]);
    }
  }

  lemma {:induction false} AllInFilter(s: seq<SymFreq>, pass: nat, d: nat)
    ensures |Filter(s, pass, d)| <= |s|
    ensures |Filter(s, pass, d)| == |s| ==> forall i :: 0 <= i < |s| ==> Digit(s[i], pass) == d
  {
    hide Digit;
    if s != [] { AllInFilter(s[..|s| - 1], pass, d); }
  }

  // ---- equal keys

  /** The elements with one key, in their order. */
  function OfKey(s: seq<SymFreq>, k: nat): seq<SymFreq> {
    if s == [] then [] else OfKey(s[..|s| - 1], k) + if s[|s| - 1].key == k then [s[|s| - 1]] else []
  }

  /** Elements with equal keys stay in their order. */
  ghost predicate Stable(s: seq<SymFreq>, r: seq<SymFreq>) {
    forall k: nat :: OfKey(r, k) == OfKey(s, k)
  }

  lemma {:induction false} OfKeyConcat(a: seq<SymFreq>, b: seq<SymFreq>, k: nat)
    ensures OfKey(a + b, k) == OfKey(a, k) + OfKey(b, k)
    decreases |b|
  {
    if b == [] {
      assert a + b == a;
    } else {
      assert (a + b)[..|a + b| - 1] == a + b[..|b| - 1];
      OfKeyConcat(a, b[..|b| - 1], k);
    }
  }

  lemma {:induction false} OfKeyInBucket(s: seq<SymFreq>, pass: nat, d: nat, k: nat)
    ensures OfKey(Filter(s, pass, d), k) == if Digit(SymFreq(k, 0), pass) == d then OfKey(s, k) else []
  {
    if s != [] {
      var r, x := s[..|s| - 1], s[|s| - 1];
      OfKeyInBucket(r, pass, d, k);
      OfKeyConcat(Filter(r, pass, d), [x], k);
      assert [x][..0] == [];
    }
  }

  lemma {:induction false} OfKeyInBuckets(s: seq<SymFreq>, pass: nat, n: nat, k: nat)
    ensures OfKey(Buckets(s, pass, n), k) == if Digit(SymFreq(k, 0), pass) < n then OfKey(s, k) else []
  {
    hide Digit, Filter, OfKey;
    if n == 0 {
      NoneOfKey(k);
    } else {
      OfKeyInBuckets(s, pass, n - 1, k);
      OfKeyConcat(Buckets(s, pass, n - 1), Filter(s, pass, n - 1), k);
      OfKeyInBucket(s, pass, n - 1, k);
    }
  }

  lemma NoneOfKey(k: nat)
    ensures OfKey([], k) == []
  {
  }

  /** Distribution is stable. */
  lemma BucketsStable(s: seq<SymFreq>, pass: nat)
    ensures Stable(s, Buckets(s, pass, 256))
  {
    hide Buckets, OfKey;
    forall k: nat
      ensures OfKey(Buckets(s, pass, 256), k) == OfKey(s, k)
    {
      OfKeyInBuckets(s, pass, 256, k);
    }
  }

  lemma {:induction false} OfKeyElements(s: seq<SymFreq>, k: nat)
    ensures forall i :: 0 <= i < |s| && s[i].key == k ==> OfKey(s, k) != []
    ensures OfKey(s, k) != [] ==> exists i :: 0 <= i < |s| && s[i].key == k
  {
    if s != [] {
      OfKeyElements(s[..|s| - 1], k);
      if s[|s| - 1].key != k && OfKey(s, k) != [] {
        var i :| 0 <= i < |s| - 1 && s[..|s| - 1][i].key == k;
        assert s[i].key == k;
      }
    }
  }

  /** There is one stable sorted arrangement. */
  lemma {:induction false} StableUnique(a: seq<SymFreq>, b: seq<SymFreq>)
    requires KeySorted(a) && KeySorted(b) && Stable(a, b)
    ensures a == b
    decreases |a|
  {
    if a == [] || b == [] {
      if a != [] {
        StableAt(a, b, a[0].key);
        OfKeyElements(a, a[0].key);
      }
      if b != [] {
        StableAt(a, b, b[0].key);
        OfKeyElements(b, b[0].key);
      }
    } else {
      SameLast(a, b);
      var p, q, x := a[..|a| - 1], b[..|b| - 1], a[|a| - 1];
      assert a == p + [x] && b == q + [x];
      forall k: nat
        ensures OfKey(q, k) == OfKey(p, k)
      {
        assert OfKey(b, k) == OfKey(a, k);
        SameRest(OfKey(p, k), OfKey(q, k), if x.key == k then [x] else []);
      }
      StableUnique(p, q);
    }
  }

  lemma StableAt(a: seq<SymFreq>, b: seq<SymFreq>, k: nat)
    requires Stable(a, b)
    ensures OfKey(b, k) == OfKey(a, k)
  {
  }

  lemma SameRest(p: seq<SymFreq>, q: seq<SymFreq>, t: seq<SymFreq>)
    requires p + t == q + t
    ensures p == q
  {
    assert |p| == |q|;
    assert p == (p + t)[..|p|] && q == (q + t)[..|q|];
  }

  lemma SameLast(a: seq<SymFreq>, b: seq<SymFreq>)
    requires KeySorted(a) && KeySorted(b) && Stable(a, b) && a != [] && b != []
    ensures a[|a| - 1] == b[|b| - 1]
  {
    var x, y := a[|a| - 1], b[|b| - 1];
    NotAfter(a, b);
    assert Stable(b, a);
    NotAfter(b, a);
    assert OfKey(b, x.key) == OfKey(a, x.key);
    assert OfKey(a, x.key)[|OfKey(a, x.key)| - 1] == x && OfKey(b, x.key)[|OfKey(b, x.key)| - 1] == y;
  }

  lemma NotAfter(a: seq<SymFreq>, b: seq<SymFreq>)
    requires KeySorted(b) && Stable(a, b) && a != [] && b != []
    ensures a[|a| - 1].key <= b[|b| - 1].key
  {
    hide OfKey;
    var k := a[|a| - 1].key;
    OfKeyElements(a, k);
    OfKeyElements(b, k);
    assert OfKey(b, k) == OfKey(a, k);
    var i :| 0 <= i < |b| && b[i].key == k;
  }

  // ---- the array version

  /** Counts the values of one digit. */
  method Histogram(s: seq<SymFreq>, pass: nat) returns (hist: seq<nat>)
    ensures |hist| == 256 && forall d: nat :: d < 256 ==> hist[d] == |Filter(s, pass, d)|
  {
    hide Digit;
    hist := seq(256, _ => 0);
    var i := 0;
    while i < |s|
      invariant i <= |s| && |hist| == 256
      invariant forall d: nat :: d < 256 ==> hist[d] == |Filter(s[..i], pass, d)|
    {
      DigitBound(s[i], pass);
      var digit := Digit(s[i], pass);
      hist := hist[digit := hist[digit] + 1];
      CountSnoc(s, i, pass);
      i := i + 1;
    }
    assert s[..i] == s;
  }

  lemma CountSnoc(s: seq<SymFreq>, i: nat, pass: nat)
    requires i < |s|
    ensures forall d: nat ::
              |Filter(s[..i + 1], pass, d)| == |Filter(s[..i], pass, d)| + if Digit(s[i], pass) == d then 1 else 0
  {
    assert s[..i + 1] == s[..i] + [s[i]];
    forall d: nat
      ensures |Filter(s[..i + 1], pass, d)| == |Filter(s[..i], pass, d)| + if Digit(s[i], pass) == d then 1 else 0
    {
      FilterSnoc(s[..i], s[i], pass, d);
    }
  }

  /** The start of every bucket. */
  method Offsets(hist: seq<nat>, ghost s: seq<SymFreq>, ghost pass: nat) returns (offsets: seq<nat>)
    requires |hist| == 256 && forall d: nat :: d < 256 ==> hist[d] == |Filter(s, pass, d)|
    ensures |offsets| == 256 && forall d: nat :: d < 256 ==> offsets[d] == |Buckets(s, pass, d)|
  {
    hide Filter;
    offsets := seq(256, _ => 0);
    var cur: nat := 0;
    var i := 0;
    while i < 256
      invariant i <= 256 && |offsets| == 256
      invariant cur == |Buckets(s, pass, i)|
      invariant forall d: nat :: d < i ==> offsets[d] == |Buckets(s, pass, d)|
    {
      offsets := offsets[i := cur];
      cur := cur + hist[i];
      i := i + 1;
    }
  }

  /** Bucket d of s starts at its place and holds, so far, the elements among the first i. */
  ghost predicate Placed(to: seq<SymFreq>, s: seq<SymFreq>, pass: nat, i: nat, d: nat)
    requires i <= |s|
  {
    var start, f := |Buckets(s, pass, d)|, Filter(s[..i], pass, d);
    start + |f| <= |to| && to[start..start + |f|] == f
  }

  ghost predicate AllPlaced(to: seq<SymFreq>, offsets: seq<nat>, s: seq<SymFreq>, pass: nat, i: nat)
    requires i <= |s|
  {
    && |offsets| == 256
    && forall d: nat :: d < 256 ==>
         Placed(to, s, pass, i, d) && offsets[d] == |Buckets(s, pass, d)| + |Filter(s[..i], pass, d)|
  }

  lemma {:induction false} FilterPrefix(s: seq<SymFreq>, pass: nat, d: nat, i: nat)
    requires i <= |s|
    ensures |Filter(s[..i], pass, d)| <= |Filter(s, pass, d)|
  {
    assert s == s[..i] + s[i..];
    FilterConcat(s[..i], s[i..], pass, d);
  }

  /** The next element goes inside its bucket. */
  lemma RoomInBucket(s: seq<SymFreq>, pass: nat, i: nat)
    requires i < |s|
    ensures |Filter(s[..i], pass, Digit(s[i], pass))| < |Filter(s, pass, Digit(s[i], pass))|
  {
    hide Digit;
    var d := Digit(s[i], pass);
    assert s[..i + 1] == s[..i] + [s[i]];
    FilterSnoc(s[..i], s[i], pass, d);
    FilterPrefix(s, pass, d, i + 1);
  }

  lemma {:induction false} BucketStarts(s: seq<SymFreq>, pass: nat, d: nat, e: nat)
    requires d < e
    ensures |Buckets(s, pass, d)| + |Filter(s, pass, d)| <= |Buckets(s, pass, e)|
    decreases e
  {
    hide Filter;
    if d < e - 1 { BucketStarts(s, pass, d, e - 1); }
  }

  /** Placing one element extends its bucket and touches no other. */
  lemma PlaceOne(to: seq<SymFreq>, offsets: seq<nat>, s: seq<SymFreq>, pass: nat, i: nat)
    requires i < |s| && |to| == |s| && AllPlaced(to, offsets, s, pass, i)
    ensures var g := Digit(s[i], pass);
            && g < 256 && offsets[g] < |to|
            && AllPlaced(to[offsets[g] := s[i]], offsets[g := offsets[g] + 1], s, pass, i + 1)
  {
    hide Digit, Filter, Buckets;
    DigitBound(s[i], pass);
    var g := Digit(s[i], pass);
    BucketsPermutation(s, pass);
    RoomInBucket(s, pass, i);
    BucketStarts(s, pass, g, 256);
    var p := offsets[g];
    assert Placed(to, s, pass, i, g);
    forall d: nat | d < 256
      ensures Placed(to[p := s[i]], s, pass, i + 1, d)
      ensures |Filter(s[..i + 1], pass, d)| == |Filter(s[..i], pass, d)| + if d == g then 1 else 0
    {
      assert Placed(to, s, pass, i, d);
      PlaceBucket(to, s, pass, i, d);
    }
  }

  lemma PlaceBucket(to: seq<SymFreq>, s: seq<SymFreq>, pass: nat, i: nat, d: nat)
    requires i < |s| && d < 256 && Placed(to, s, pass, i, d)
    requires var g := Digit(s[i], pass); g < 256 && |Buckets(s, pass, g)| + |Filter(s[..i], pass, g)| < |to|
    ensures var g := Digit(s[i], pass); var p := |Buckets(s, pass, g)| + |Filter(s[..i], pass, g)|;
            Placed(to[p := s[i]], s, pass, i + 1, d)
    ensures |Filter(s[..i + 1], pass, d)| == |Filter(s[..i], pass, d)| + if d == Digit(s[i], pass) then 1 else 0
  {
    hide Digit, Filter, Buckets;
    var g := Digit(s[i], pass);
    RoomInBucket(s, pass, i);
    FilterPrefix(s, pass, d, i);
    assert s[..i + 1] == s[..i] + [s[i]];
    FilterSnoc(s[..i], s[i], pass, d);
    if d < g {
      BucketStarts(s, pass, d, g);
    } else if g < d {
      BucketStarts(s, pass, g, d);
    }
  }

  lemma {:induction false} PlacedTogether(to: seq<SymFreq>, s: seq<SymFreq>, pass: nat, n: nat)
    requires n <= 256 && forall d: nat :: d < 256 ==> Placed(to, s, pass, |s|, d)
    ensures |Buckets(s, pass, n)| <= |to| && to[..|Buckets(s, pass, n)|] == Buckets(s, pass, n)
  {
    hide Filter;
    if n > 0 {
      PlacedTogether(to, s, pass, n - 1);
      assert Placed(to, s, pass, |s|, n - 1);
      assert s[..|s|] == s;
      var a, f := Buckets(s, pass, n - 1), Filter(s, pass, n - 1);
      assert to[..|a| + |f|] == to[..|a|] + to[|a|..|a| + |f|];
    }
  }

  lemma NothingPlaced(to: seq<SymFreq>, offsets: seq<nat>, s: seq<SymFreq>, pass: nat)
    requires |to| == |s| && |offsets| == 256
    requires forall d: nat :: d < 256 ==> offsets[d] == |Buckets(s, pass, d)|
    ensures AllPlaced(to, offsets, s, pass, 0)
  {
    forall d: nat | d < 256
      ensures Placed(to, s, pass, 0, d) && Filter(s[..0], pass, d) == []
    {
      BucketsPermutation(s, pass);
      BucketStarts(s, pass, d, 256);
    }
  }

  /** One distribution pass from one array into the other. */
  method DistributePass(cur: array<SymFreq>, to: array<SymFreq>, pass: nat, hist: seq<nat>)
    requires cur != to && cur.Length == to.Length
    requires |hist| == 256 && forall d: nat :: d < 256 ==> hist[d] == |Filter(cur[..], pass, d)|
    modifies to
    ensures to[..] == Buckets(old(cur[..]), pass, 256)
  {
    hide Digit, Filter, Buckets, AllPlaced;
    ghost var s := cur[..];
    var offsets := Offsets(hist, s, pass);
    NothingPlaced(to[..], offsets, s, pass);
    var i := 0;
    while i < cur.Length
      invariant i <= cur.Length && cur[..] == s
      invariant AllPlaced(to[..], offsets, s, pass, i)
    {
      PlaceOne(to[..], offsets, s, pass, i);
      PlacedOffsets(to[..], offsets, s, pass, i);
      ghost var t := to[..];
      var g := Digit(cur[i], pass);
      var p := offsets[g];
      to[p] := cur[i];
      offsets := offsets[g := p + 1];
      assert to[..] == t[p := s[i]];
      i := i + 1;
    }
    PlacedAll(to[..], offsets, s, pass);
  }

  lemma PlacedOffsets(to: seq<SymFreq>, offsets: seq<nat>, s: seq<SymFreq>, pass: nat, i: nat)
    requires i <= |s| && AllPlaced(to, offsets, s, pass, i)
    ensures |offsets| == 256
  {
  }

  lemma PlacedAll(to: seq<SymFreq>, offsets: seq<nat>, s: seq<SymFreq>, pass: nat)
    requires |to| == |s| && AllPlaced(to, offsets, s, pass, |s|)
    ensures to == Buckets(s, pass, 256)
  {
    hide Digit, Filter, Buckets;
    BucketsPermutation(s, pass);
    PlacedTogether(to, s, pass, 256);
    assert to[..|s|] == to;
  }

  /** tdefl_radix_sort_syms: the sorted symbols end up in one of the two arrays. The second pass is
      left out when every high digit is zero. */
  method RadixSortSyms(syms0: array<SymFreq>, syms1: array<SymFreq>) returns (r: array<SymFreq>)
    requires syms0 != syms1 && syms0.Length == syms1.Length && SmallKeys(syms0[..])
    modifies syms0, syms1
    ensures r == syms0 || r == syms1
    ensures KeySorted(r[..]) && multiset(r[..]) == multiset(old(syms0[..]))
    ensures KeyTotal(r[..]) == KeyTotal(old(syms0[..])) && Stable(old(syms0[..]), r[..])
  {
    hide Digit, Filter, Buckets, KeySorted, LowSorted, OfKey, KeyTotal;
    ghost var s := syms0[..];
    var hist0 := Histogram(syms0[..], 0);
    var hist1 := Histogram(syms0[..], 1);
    var totalPasses := 2;
    if totalPasses > 1 && syms0.Length == hist1[0] {
      totalPasses := totalPasses - 1;
    }
    DistributePass(syms0, syms1, 0, hist0);
    FirstPassSorts(s, 256);
    BucketsPermutation(s, 0);
    BucketsTotal(s, 0);
    BucketsStable(s, 0);
    SmallKeysKept(s, syms1[..]);
    r := syms1;
    ghost var t := syms1[..];
    forall d: nat | d < 256
      ensures hist1[d] == |Filter(t, 1, d)|
    {
      BucketsCount(s, 0, 1, d);
    }
    if totalPasses == 2 {
      DistributePass(syms1, syms0, 1, hist1);
      SecondPassSorts(t, 256);
      BucketsPermutation(t, 1);
      BucketsTotal(t, 1);
      BucketsStable(t, 1);
      r := syms0;
    } else {
      OnePassSorts(t);
    }
  }

  lemma SmallKeysKept(s: seq<SymFreq>, t: seq<SymFreq>)
    requires SmallKeys(s) && multiset(s) == multiset(t)
    ensures SmallKeys(t)
  {
    forall i | 0 <= i < |t|
      ensures t[i].key < 65536
    {
      assert t[i] in multiset(t);
      assert t[i] in s;
    }
  }
}
