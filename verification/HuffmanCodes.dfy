/** tdefl_optimize_huffman_table: from symbol counts to limited code lengths and reversed codes. */
module HuffmanCodes {
  import opened Bits
  import opened Canonical
  import opened RadixSort
  import opened BuildTable
  import M = Merge
  import T = HuffmanTree
  import MinRedundancy
  import O = Optimality
  import L = LengthLimit
  import LC = LimitedCost
  import opened LightCodes
  import opened InflateTable

  // ---- collecting the used symbols

  ghost predicate DistinctSyms(s: seq<SymFreq>) {
    forall i, j :: 0 <= i < j < |s| ==> s[i].sym != s[j].sym
  }

  function CountTotal(counts: seq<nat>, n: nat): nat
    requires n <= |counts|
  {
    if n == 0 then 0 else CountTotal(counts, n - 1) + counts[n - 1]
  }

  /** The used symbols below n with their counts, in order. */
  function Used(counts: seq<nat>, n: nat): seq<SymFreq>
    requires n <= |counts|
  {
    if n == 0 then []
    else if counts[n - 1] > 0 then Used(counts, n - 1) + [SymFreq(counts[n - 1], n - 1)]
    else Used(counts, n - 1)
  }

  lemma KeyTotalSnoc(s: seq<SymFreq>, x: SymFreq)
    ensures KeyTotal(s + [x]) == KeyTotal(s) + x.key
  {
    assert (s + [x])[..|s|] == s;
  }

  lemma KeyTotalEmpty()
    ensures KeyTotal([]) == 0
  {
  }

  lemma {:induction false} UsedElements(counts: seq<nat>, n: nat)
    requires n <= |counts|
    ensures forall i :: 0 <= i < |Used(counts, n)| ==>
              var x := Used(counts, n)[i]; x.sym < n && x.key == counts[x.sym] && x.key > 0
    ensures DistinctSyms(Used(counts, n))
    ensures |Used(counts, n)| <= n
    ensures KeyTotal(Used(counts, n)) == CountTotal(counts, n)
  {
    hide KeyTotal;
    if n > 0 {
      UsedElements(counts, n - 1);
      var u := Used(counts, n - 1);
      if counts[n - 1] > 0 {
        KeyTotalSnoc(u, SymFreq(counts[n - 1], n - 1));
      }
    } else {
      KeyTotalEmpty();
    }
  }

  lemma {:induction false} UsedAll(counts: seq<nat>, n: nat, s: nat)
    requires s < n <= |counts| && counts[s] > 0
    ensures SymFreq(counts[s], s) in Used(counts, n)
  {
    if s < n - 1 { UsedAll(counts, n - 1, s); }
  }

  lemma {:induction false} CountTotalBound(counts: seq<nat>, n: nat, i: nat)
    requires i < n <= |counts|
    ensures counts[i] <= CountTotal(counts, n)
  {
    if i < n - 1 { CountTotalBound(counts, n - 1, i); }
  }

  // ---- rearranging keeps symbols distinct

  lemma {:induction false} TwiceCounts<X>(s: seq<X>, i: nat, j: nat)
    requires i < j < |s| && s[i] == s[j]
    ensures multiset(s)[s[i]] >= 2
  {
    assert s == s[..j] + s[j..];
    assert s[i] in s[..j] && s[i] in s[j..];
    assert multiset(s) == multiset(s[..j]) + multiset(s[j..]);
  }

  lemma {:induction false} OnceCounts(s: seq<SymFreq>, x: SymFreq)
    requires DistinctSyms(s)
    ensures multiset(s)[x] <= 1
  {
    if s != [] {
      var r, y := s[..|s| - 1], s[|s| - 1];
      assert s == r + [y];
      OnceCounts(r, x);
      assert x in multiset(r) ==> x in r;
    }
  }

  lemma RearrangedDistinct(s: seq<SymFreq>, t: seq<SymFreq>)
    requires DistinctSyms(s) && multiset(s) == multiset(t)
    ensures DistinctSyms(t)
  {
    forall i, j | 0 <= i < j < |t|
      ensures t[i].sym != t[j].sym
    {
      if t[i].sym == t[j].sym {
        assert t[i] in multiset(t) && t[j] in multiset(t);
        assert t[i] in s && t[j] in s;
        assert t[i] == t[j];
        TwiceCounts(t, i, j);
        OnceCounts(s, t[i]);
      }
    }
  }

  function Keys(s: seq<SymFreq>): (k: seq<nat>)
    ensures |k| == |s| && forall i :: 0 <= i < |s| ==> k[i] == s[i].key
  {
    seq(|s|, i requires 0 <= i < |s| => s[i].key)
  }

  lemma {:induction false} KeysTotal(s: seq<SymFreq>, n: nat)
    requires n <= |s|
    ensures M.Sum(Keys(s), 0, n) == KeyTotal(s[..n])
  {
    if n > 0 {
      KeysTotal(s, n - 1);
      assert s[..n][..n - 1] == s[..n - 1];
    }
  }

  // ---- counting lengths

  /** Counting one more code of length l. */
  lemma CountOne(c: seq<nat>, l: nat, max: nat)
    requires |c| == 33 && 1 <= l <= max <= 32
    ensures L.Kraft(c[l := c[l] + 1], max, max) == L.Kraft(c, max, max) + Pow2(max - l)
    ensures L.Total(c[l := c[l] + 1], 1, max) == L.Total(c, 1, max) + 1
  {
    hide Pow2, Mul;
    L.KraftAdd(c, max, max, l, 1);
    L.TotalAdd(c, 1, max, l, 1);
    MulIsProduct(1, Pow2(max - l));
  }

  lemma {:induction false} NoCounts(c: seq<nat>, max: nat, n: nat)
    requires |c| == 33 && n <= max <= 32 && forall i :: 0 <= i < 33 ==> c[i] == 0
    ensures L.Kraft(c, max, n) == 0 && L.Total(c, 1, n) == 0
  {
    L.NoShortCodes(c, max, n);
  }

  /** How many of the first n lengths are at most t. */
  ghost function AtMost(lens: seq<nat>, t: nat, n: nat): nat
    requires n <= |lens|
  {
    if n == 0 then 0 else AtMost(lens, t, n - 1) + if lens[n - 1] <= t then 1 else 0
  }

  lemma {:induction false} AtMostFrom(lens: seq<nat>, t: nat, p: nat, n: nat)
    requires p <= n <= |lens| && forall i, j :: 0 <= i <= j < |lens| ==> lens[i] >= lens[j]
    ensures p < n && lens[p] <= t ==> AtMost(lens, t, n) >= n - p
    ensures p < |lens| && lens[p] > t ==> AtMost(lens, t, p) == 0
    ensures AtMost(lens, t, n) <= AtMost(lens, t, p) + n - p
    decreases n
  {
    if p < n {
      AtMostFrom(lens, t, p, n - 1);
    } else if n > 0 {
      AtMostFrom(lens, t, p - 1, n - 1);
    }
  }

  /** Falling lengths with counts for each are levelled. */
  lemma CountedLevels(lens: seq<nat>, c: seq<nat>)
    requires |c| == 33 && forall t :: 0 <= t <= 32 ==> L.Total(c, 1, t) == AtMost(lens, t, |lens|)
    requires L.Total(c, 1, 32) == |lens| && forall i, j :: 0 <= i <= j < |lens| ==> lens[i] >= lens[j]
    ensures LC.Leveled(lens, c, 32)
  {
    hide L.Total, AtMost;
    forall p, t | 0 <= p < |lens| && 0 <= t <= 32
      ensures lens[p] <= t <==> p + L.Total(c, 1, t) >= |lens|
    {
      AtMostFrom(lens, t, p, |lens|);
      AtMostFrom(lens, t, p + 1, |lens|);
      AtMostStep(lens, t, p);
    }
  }

  lemma AtMostStep(lens: seq<nat>, t: nat, p: nat)
    requires p < |lens|
    ensures AtMost(lens, t, p + 1) == AtMost(lens, t, p) + if lens[p] <= t then 1 else 0
  {
  }

  lemma {:induction false} NoTotals(c: seq<nat>, n: nat)
    requires |c| == 33 && n <= 32 && forall i :: 0 <= i < 33 ==> c[i] == 0
    ensures L.Total(c, 1, n) == 0
  {
    if n > 0 { NoTotals(c, n - 1); }
  }

  lemma NothingCounted(lens: seq<nat>, c: seq<nat>)
    requires |c| == 33 && forall i :: 0 <= i < 33 ==> c[i] == 0
    ensures forall t :: 0 <= t <= 32 ==> L.Total(c, 1, t) == AtMost(lens, t, 0)
  {
    forall t | 0 <= t <= 32
      ensures L.Total(c, 1, t) == AtMost(lens, t, 0)
    {
      NoTotals(c, t);
    }
  }

  lemma CountedNext(lens: seq<nat>, c: seq<nat>, d: seq<nat>, i: nat)
    requires |c| == 33 && i < |lens| && 1 <= lens[i] <= 32 && d == c[lens[i] := c[lens[i]] + 1]
    requires forall t :: 0 <= t <= 32 ==> L.Total(c, 1, t) == AtMost(lens, t, i)
    ensures forall t :: 0 <= t <= 32 ==> L.Total(d, 1, t) == AtMost(lens, t, i + 1)
  {
    hide L.Total, AtMost;
    forall t | 0 <= t <= 32
      ensures L.Total(d, 1, t) == AtMost(lens, t, i + 1)
    {
      L.TotalAdd(c, 1, t, lens[i], 1);
      AtMostStep(lens, t, i);
    }
  }

  /** How many codes of each length the unlimited code has. */
  method CountCodes(lens: seq<nat>, numCodes: array<nat>)
    requires numCodes.Length == 33 && forall i :: 0 <= i < 33 ==> numCodes[i] == 0
    requires forall i :: 0 <= i < |lens| ==> 1 <= lens[i] <= 32
    modifies numCodes
    ensures T.Within(lens, 32)
    ensures L.Kraft(numCodes[..], 32, 32) == M.Sum(T.Weights(lens, 32), 0, |lens|)
    ensures L.Total(numCodes[..], 1, 32) == |lens|
    ensures |lens| == 1 && lens[0] == 1 ==> numCodes[1] == 1
    ensures (forall i, j :: 0 <= i <= j < |lens| ==> lens[i] >= lens[j]) ==> LC.Leveled(lens, numCodes[..], 32)
  {
    hide Pow2, Mul, L.Kraft, L.Total, AtMost, LC.Leveled;
    assert T.Within(lens, 32);
    NoCounts(numCodes[..], 32, 32);
    NothingCounted(lens, numCodes[..]);
    var i := 0;
    while i < |lens|
      invariant i <= |lens|
      invariant L.Kraft(numCodes[..], 32, 32) == M.Sum(T.Weights(lens, 32), 0, i)
      invariant L.Total(numCodes[..], 1, 32) == i
      invariant |lens| == 1 && lens[0] == 1 ==> numCodes[1] == i
      invariant forall t :: 0 <= t <= 32 ==> L.Total(numCodes[..], 1, t) == AtMost(lens, t, i)
    {
      CountOne(numCodes[..], lens[i], 32);
      ghost var c := numCodes[..];
      var l := lens[i];
      numCodes[l] := numCodes[l] + 1;
      assert numCodes[..] == c[l := c[l] + 1];
      CountedNext(lens, c, numCodes[..], i);
      i := i + 1;
    }
    if forall i, j :: 0 <= i <= j < |lens| ==> lens[i] >= lens[j] {
      CountedLevels(lens, numCodes[..]);
    }
  }

  // ---- assigning sizes

  lemma {:induction false} CountUpdate(lens: Lengths, s: nat, v: nat, t: nat, n: nat)
    requires s < |lens| && n <= |lens| && lens[s] == 0 && t > 0
    ensures Count(lens[s := v], t, n) == Count(lens, t, n) + if s < n && v == t then 1 else 0
  {
    if n > 0 { CountUpdate(lens, s, v, t, n - 1); }
  }

  lemma {:induction false} CountNone(lens: Lengths, t: nat, n: nat)
    requires n <= |lens| && t > 0 && forall i :: 0 <= i < n ==> lens[i] == 0
    ensures Count(lens, t, n) == 0
  {
    if n > 0 { CountNone(lens, t, n - 1); }
  }

  /** The counts of lens are those of c below i, k at i, and none above. */
  ghost predicate Counted(lens: Lengths, c: seq<nat>, i: nat, k: nat) {
    |c| == 33 && forall t :: 1 <= t <= 15 ==> Count(lens, t, |lens|) == if t < i then c[t] else if t == i then k else 0
  }

  /** The sorted symbols from j on have sizes in 1..limit, all other entries are zero. */
  ghost predicate Assigned(lens: Lengths, r: seq<SymFreq>, j: nat, limit: nat) {
    && (forall p :: 0 <= p < |r| ==> r[p].sym < |lens|)
    && (forall p :: 0 <= p < j && p < |r| ==> lens[r[p].sym] == 0)
    && (forall p :: j <= p < |r| ==> 1 <= lens[r[p].sym] <= limit)
    && (forall s :: 0 <= s < |lens| && lens[s] > 0 ==> exists p :: 0 <= p < |r| && r[p].sym == s)
  }

  lemma AssignOneCounted(lens: Lengths, c: seq<nat>, i: nat, k: nat, s: nat)
    requires Counted(lens, c, i, k) && 1 <= i <= 15 && s < |lens| && lens[s] == 0
    ensures Counted(lens[s := i], c, i, k + 1)
  {
    hide Count;
    var after := lens[s := i];
    forall t | 1 <= t <= 15
      ensures Count(after, t, |after|) == if t < i then c[t] else if t == i then k + 1 else 0
    {
      CountUpdate(lens, s, i, t, |lens|);
    }
  }

  lemma AssignOne(lens: Lengths, c: seq<nat>, i: nat, k: nat, r: seq<SymFreq>, j: nat, limit: nat)
    requires Assigned(lens, r, j + 1, limit) && Counted(lens, c, i, k) && j < |r| && 1 <= i <= limit <= 15
    requires DistinctSyms(r)
    ensures r[j].sym < |lens| && lens[r[j].sym] == 0
    ensures Assigned(lens[r[j].sym := i], r, j, limit) && Counted(lens[r[j].sym := i], c, i, k + 1)
  {
    var s := r[j].sym;
    AssignOneCounted(lens, c, i, k, s);
    hide Counted;
    var after := lens[s := i];
    forall t | 0 <= t < |after| && after[t] > 0
      ensures exists p :: 0 <= p < |r| && r[p].sym == t
    {
      if t == s {
        assert r[j].sym == t;
      } else {
        assert lens[t] > 0;
      }
    }
  }

  lemma NothingAssigned(lens: Lengths, c: seq<nat>, r: seq<SymFreq>, limit: nat)
    requires forall i :: 0 <= i < |lens| ==> lens[i] == 0
    requires |c| == 33 && forall p :: 0 <= p < |r| ==> r[p].sym < |lens|
    ensures Assigned(lens, r, |r|, limit) && Counted(lens, c, 1, 0)
  {
    forall t | 1 <= t <= 15
      ensures Count(lens, t, |lens|) == 0
    {
      CountNone(lens, t, |lens|);
    }
  }

  lemma NextLength(lens: Lengths, c: seq<nat>, i: nat)
    requires 1 <= i <= 15 && |c| == 33 && Counted(lens, c, i, c[i])
    ensures Counted(lens, c, i + 1, 0)
  {
    hide Count;
  }

  lemma TotalAt(c: seq<nat>, i: nat, limit: nat)
    requires |c| == 33 && 1 <= i <= limit <= 32
    ensures L.Total(c, 1, i) == L.Total(c, 1, i - 1) + c[i] <= L.Total(c, 1, limit)
  {
    TotalGrows(c, i, limit);
  }

  lemma {:induction false} TotalGrows(c: seq<nat>, i: nat, limit: nat)
    requires |c| == 33 && i <= limit <= 32
    ensures L.Total(c, 1, i) <= L.Total(c, 1, limit)
    decreases limit
  {
    if i < limit { TotalGrows(c, i, limit - 1); }
  }

  /** The sizes of the sorted symbols from j on are levelled: t bits are enough for exactly the last
      Total(c, 1, t) symbols. */
  ghost predicate SizesLeveled(lens: Lengths, r: seq<SymFreq>, c: seq<nat>, j: nat, limit: nat) {
    && |c| == 33 && limit <= 15 && (forall p :: 0 <= p < |r| ==> r[p].sym < |lens|)
    && forall p, t :: j <= p < |r| && 0 <= t <= limit ==> (lens[r[p].sym] <= t <==> p + L.Total(c, 1, t) >= |r|)
  }

  lemma AssignLevel(lens: Lengths, r: seq<SymFreq>, c: seq<nat>, j: nat, limit: nat, i: nat)
    requires SizesLeveled(lens, r, c, j + 1, limit) && j < |r| && 1 <= i <= limit && DistinctSyms(r)
    requires j + L.Total(c, 1, i) >= |r| > j + L.Total(c, 1, i - 1)
    ensures SizesLeveled(lens[r[j].sym := i], r, c, j, limit)
  {
    hide L.Total;
    var after := lens[r[j].sym := i];
    forall p, t | j <= p < |r| && 0 <= t <= limit
      ensures after[r[p].sym] <= t <==> p + L.Total(c, 1, t) >= |r|
    {
      if p > j {
        assert lens[r[p].sym] <= t <==> p + L.Total(c, 1, t) >= |r|;
      } else if i <= t {
        LC.TotalRises(c, i, t);
      } else {
        LC.TotalRises(c, t, i - 1);
      }
    }
  }

  lemma NoneLeveled(lens: Lengths, r: seq<SymFreq>, c: seq<nat>, limit: nat)
    requires |c| == 33 && limit <= 15 && forall p :: 0 <= p < |r| ==> r[p].sym < |lens|
    ensures SizesLeveled(lens, r, c, |r|, limit)
  {
  }

  /** A less frequent symbol has no shorter code. */
  lemma SizesFall(lens: Lengths, r: seq<SymFreq>, c: seq<nat>, limit: nat)
    requires SizesLeveled(lens, r, c, 0, limit) && L.Total(c, 1, limit) == |r|
    ensures forall p, q :: 0 <= p <= q < |r| ==> lens[r[p].sym] >= lens[r[q].sym]
  {
    hide L.Total;
    forall p, q | 0 <= p <= q < |r|
      ensures lens[r[p].sym] >= lens[r[q].sym]
    {
      var t: nat := lens[r[p].sym];
      assert t <= limit;
      assert p + L.Total(c, 1, t) >= |r|;
      assert lens[r[q].sym] <= t;
    }
  }

  /** Gives the shortest lengths to the most frequent symbols, from the back of the sorted list. */
  method AssignSizes(r: seq<SymFreq>, c: seq<nat>, limit: nat, sizes: array<nat>)
    requires 1 <= limit <= 15 && |c| == 33 && DistinctSyms(r) && L.Total(c, 1, limit) == |r|
    requires forall p :: 0 <= p < |r| ==> r[p].sym < sizes.Length
    modifies sizes
    ensures Assigned(sizes[..], r, 0, limit) && Counted(sizes[..], c, limit + 1, 0)
    ensures SizesLeveled(sizes[..], r, c, 0, limit)
    ensures forall p, q :: 0 <= p <= q < |r| ==> sizes[r[p].sym] >= sizes[r[q].sym]
  {
    hide Assigned, Counted, L.Total, DistinctSyms, SizesLeveled;
    forall i | 0 <= i < sizes.Length { sizes[i] := 0; }
    NothingAssigned(sizes[..], c, r, limit);
    NoneLeveled(sizes[..], r, c, limit);
    NoTotal(c);
    var i: nat, j: nat := 1, |r|;
    while i <= limit
      invariant 1 <= i <= limit + 1 && 0 <= j <= |r| && j + L.Total(c, 1, i - 1) == |r|
      invariant Assigned(sizes[..], r, j, limit) && Counted(sizes[..], c, i, 0)
      invariant SizesLeveled(sizes[..], r, c, j, limit)
    {
      TotalAt(c, i, limit);
      var l := c[i];
      ghost var top := j;
      while l > 0
        invariant l <= c[i] && 0 <= j <= |r| && j == top - (c[i] - l)
        invariant Assigned(sizes[..], r, j, limit) && Counted(sizes[..], c, i, c[i] - l)
        invariant SizesLeveled(sizes[..], r, c, j, limit)
      {
        j := j - 1;
        ghost var lens: seq<nat> := sizes[..];
        AssignOne(lens, c, i, c[i] - l, r, j, limit);
        AssignLevel(lens, r, c, j, limit, i);
        sizes[r[j].sym] := i;
        assert sizes[..] == lens[r[j].sym := i];
        l := l - 1;
      }
      NextLength(sizes[..], c, i);
      i := i + 1;
    }
    SizesFall(sizes[..], r, c, limit);
  }

  lemma NoTotal(c: seq<nat>)
    requires |c| == 33
    ensures L.Total(c, 1, 0) == 0
  {
  }

  // ---- assigning codes

  /** The Kraft sum of a vector from its counts. */
  lemma {:induction false} KraftFromCounts(lens: Lengths, c: seq<nat>, l: nat)
    requires |c| == 33 && l <= 15 && forall t :: 1 <= t <= l ==> c[t] == Count(lens, t, |lens|)
    ensures Below(lens, l + 1, 0, |lens|) == L.Kraft(c, 15, l)
  {
    hide Count, Pow2;
    if l == 0 {
      BelowNothing(lens, |lens|);
    } else {
      KraftFromCounts(lens, c, l - 1);
      BelowNextLength(lens, l, |lens|);
    }
  }

  lemma {:induction false} KraftPadded(c: seq<nat>, l: nat, n: nat)
    requires |c| == 33 && l <= n <= 15 && forall t :: l < t <= n ==> c[t] == 0
    ensures L.Kraft(c, 15, n) == L.Kraft(c, 15, l)
    decreases n
  {
    if l < n { KraftPadded(c, l, n - 1); }
  }

  /** Limited counts with Kraft sum one make a complete vector. */
  lemma CountsComplete(lens: Lengths, c: seq<nat>, limit: nat)
    requires 1 <= limit <= 15 && Counted(lens, c, limit + 1, 0) && WellFormed(lens)
    requires L.Kraft(c, limit, limit) == Pow2(limit)
    ensures Complete(lens)
  {
    hide Count, Pow2, WellFormed;
    var e: seq<nat> := seq(33, t requires 0 <= t < 33 => if t <= limit then c[t] else 0);
    L.KraftOther(c, e, limit, limit);
    assert forall t :: 1 <= t <= 15 ==> e[t] == Count(lens, t, |lens|);
    KraftFromCounts(lens, e, 15);
    KraftPadded(e, limit, 15);
    L.KraftScale(e, limit, 15, limit);
    MulPow2(limit, 15 - limit);
  }

  /** The loop that numbers the codes and stores them reversed. */
  method AssignCodes(lens: seq<nat>, numCodes: seq<nat>, limit: nat, codes: array<nat>)
    requires 1 <= limit <= 15 && |lens| <= codes.Length && Feasible(lens) && |numCodes| == 33
    requires forall i :: 0 <= i < |lens| ==> lens[i] <= limit
    requires forall t :: 1 <= t <= limit ==> numCodes[t] == Count(lens, t, |lens|)
    modifies codes
    ensures forall i :: 0 <= i < |lens| && lens[i] > 0 ==> codes[i] == ValueOf(Code(lens, i))
  {
    hide Count, Code, Feasible, FirstCode, ValueOf, Pow2, ReverseCode;
    var nextCode := FirstCodesFrom(lens, numCodes, limit);
    var i := 0;
    while i < |lens|
      invariant i <= |lens| && |nextCode| == 33
      invariant forall t :: 1 <= t <= limit ==> nextCode[t] == FirstCode(lens, t) + Count(lens, t, i)
      invariant forall k :: 0 <= k < i && lens[k] > 0 ==> codes[k] == ValueOf(Code(lens, k))
    {
      var codeSize := lens[i];
      CountNext(lens, i);
      if codeSize != 0 {
        var code := nextCode[codeSize];
        nextCode := nextCode[codeSize := code + 1];
        RevIsCode(lens, i);
        var rev := ReverseBits(code, codeSize);
        codes[i] := rev;
      }
      i := i + 1;
    }
  }

  lemma CountNext(lens: Lengths, i: nat)
    requires i < |lens|
    ensures forall t: nat :: Count(lens, t, i + 1) == Count(lens, t, i) + if lens[i] == t then 1 else 0
  {
  }

  method FirstCodesFrom(ghost lens: seq<nat>, numCodes: seq<nat>, limit: nat) returns (nextCode: seq<nat>)
    requires 1 <= limit <= 15 && |numCodes| == 33
    requires forall t :: 1 <= t <= limit ==> numCodes[t] == Count(lens, t, |lens|)
    ensures |nextCode| == 33
    ensures forall t :: 1 <= t <= limit ==> nextCode[t] == FirstCode(lens, t) + Count(lens, t, 0)
  {
    nextCode := seq(33, _ => 0);
    var i, j: nat := 2, 0;
    while i <= limit
      invariant 2 <= i && (i <= limit + 1 || limit == 1) && |nextCode| == 33
      invariant limit > 1 || i == 2
      invariant j == FirstCode(lens, i - 1)
      invariant forall t :: 1 <= t < i ==> nextCode[t] == FirstCode(lens, t)
    {
      j := 2 * (j + numCodes[i - 1]);
      nextCode := nextCode[i := j];
      i := i + 1;
    }
  }

  // ---- what the codes cost

  ghost predicate Indexes(s: seq<SymFreq>, n: nat) {
    forall p :: 0 <= p < |s| ==> s[p].sym < n
  }

  /** The values v of the listed symbols. */
  ghost function Values(s: seq<SymFreq>, v: seq<nat>): (x: seq<nat>)
    requires Indexes(s, |v|)
    ensures |x| == |s| && forall p :: 0 <= p < |s| ==> x[p] == v[s[p].sym]
  {
    seq(|s|, p requires 0 <= p < |s| => v[s[p].sym])
  }

  lemma RemovedMultiset(t: seq<SymFreq>, k: nat)
    requires k < |t|
    ensures multiset(O.RemoveAt(t, k)) == multiset(t) - multiset{t[k]}
  {
    assert t == t[..k] + [t[k]] + t[k + 1..];
    assert multiset(t) == multiset(t[..k]) + multiset{t[k]} + multiset(t[k + 1..]);
  }

  lemma SumWithout(t: seq<SymFreq>, k: nat, v: seq<nat>)
    requires k < |t| && Indexes(t, |v|)
    ensures Indexes(O.RemoveAt(t, k), |v|)
    ensures O.Total(Values(t, v)) == O.Total(Values(O.RemoveAt(t, k), v)) + v[t[k].sym]
  {
    hide M.Sum;
    O.SumRemove(Values(t, v), k);
    assert O.RemoveAt(Values(t, v), k) == Values(O.RemoveAt(t, k), v);
  }

  lemma PermutedIndexes(s: seq<SymFreq>, t: seq<SymFreq>, n: nat)
    requires multiset(s) == multiset(t) && Indexes(s, n)
    ensures Indexes(t, n) && |s| == |t|
  {
    forall p | 0 <= p < |t|
      ensures t[p].sym < n
    {
      assert t[p] in multiset(t);
      assert t[p] in s;
    }
    assert |multiset(s)| == |s| && |multiset(t)| == |t|;
  }

  lemma PlaceIn(t: seq<SymFreq>, x: SymFreq) returns (k: nat)
    requires x in multiset(t)
    ensures k < |t| && t[k] == x
  {
    k :| k < |t| && t[k] == x;
  }

  /** A sum over symbols does not depend on their order. */
  lemma {:induction false} ValuesPermuted(s: seq<SymFreq>, t: seq<SymFreq>, v: seq<nat>)
    requires multiset(s) == multiset(t) && Indexes(s, |v|)
    ensures Indexes(t, |v|)
    ensures O.Total(Values(s, v)) == O.Total(Values(t, v))
    decreases |s|
  {
    hide O.Total, Indexes;
    PermutedIndexes(s, t, |v|);
    if s != [] {
      var n: nat := |s| - 1;
      assert s[n] in multiset(s);
      var k := PlaceIn(t, s[n]);
      RemovedMultiset(s, n);
      RemovedMultiset(t, k);
      SumWithout(s, n, v);
      SumWithout(t, k, v);
      ValuesPermuted(O.RemoveAt(s, n), O.RemoveAt(t, k), v);
    }
  }

  lemma UsedValid(counts: seq<nat>, n: nat, v: seq<nat>)
    requires n <= |counts| <= |v|
    ensures Indexes(Used(counts, n), |v|)
  {
    UsedElements(counts, n);
  }

  lemma UsedStep(counts: seq<nat>, n: nat, v: seq<nat>)
    requires n < |counts| <= |v|
    ensures Indexes(Used(counts, n), |v|)
    ensures Indexes(Used(counts, n + 1), |v|)
    ensures O.Total(Values(Used(counts, n + 1), v))
         == O.Total(Values(Used(counts, n), v)) + if counts[n] > 0 then v[n] else 0
  {
    hide M.Sum;
    UsedValid(counts, n, v);
    UsedValid(counts, n + 1, v);
    var x := Values(Used(counts, n), v);
    if counts[n] > 0 {
      assert Values(Used(counts, n + 1), v) == x + [v[n]];
      O.SumInsert(x, |x|, v[n]);
      assert O.InsertAt(x, |x|, v[n]) == x + [v[n]];
    }
  }

  /** Values that vanish for unused symbols. */
  lemma {:induction false} UsedSum(counts: seq<nat>, n: nat, v: seq<nat>)
    requires n <= |counts| == |v| && forall i :: 0 <= i < |counts| && counts[i] == 0 ==> v[i] == 0
    ensures Indexes(Used(counts, n), |v|)
    ensures O.Total(Values(Used(counts, n), v)) == M.Sum(v, 0, n)
  {
    hide O.Total, Used;
    UsedValid(counts, n, v);
    if n > 0 {
      UsedSum(counts, n - 1, v);
      UsedStep(counts, n - 1, v);
    } else {
      NoneUsed(counts, v);
    }
  }

  lemma NoneUsed(counts: seq<nat>, v: seq<nat>)
    ensures Used(counts, 0) == [] && O.Total(Values([], v)) == 0
  {
  }

  /** Lengths with which the used symbols have a prefix code. */
  ghost predicate Serves(e: seq<nat>, counts: seq<nat>) {
    Feasible(e) && |e| == |counts| && forall i :: 0 <= i < |counts| && counts[i] > 0 ==> e[i] > 0
  }

  lemma WithinUnit(e: seq<nat>)
    requires WellFormed(e)
    ensures T.Within(e, 15)
  {
  }

  lemma {:induction false} UsedKraft(counts: seq<nat>, n: nat, e: seq<nat>)
    requires n <= |counts| && WellFormed(e) && T.Within(e, 15) && |e| == |counts|
    requires forall i :: 0 <= i < |counts| && counts[i] > 0 ==> e[i] > 0
    ensures Indexes(Used(counts, n), |e|)
    ensures O.Total(Values(Used(counts, n), T.Weights(e, 15))) <= Below(e, MAX_LEN + 1, 0, n)
  {
    hide Pow2, O.Total, Used;
    UsedValid(counts, n, e);
    if n > 0 {
      UsedKraft(counts, n - 1, e);
      UsedStep(counts, n - 1, T.Weights(e, 15));
    } else {
      NoneUsed(counts, T.Weights(e, 15));
    }
  }

  /** The lengths of used symbols, listed in any order, admit a prefix code. */
  lemma ListedAllowed(counts: seq<nat>, r: seq<SymFreq>, e: seq<nat>)
    requires Serves(e, counts) && multiset(r) == multiset(Used(counts, |counts|))
    ensures Indexes(r, |e|)
    ensures O.Allowed(Values(r, e), 15)
  {
    hide Pow2, M.Sum, Used, O.Total;
    WithinUnit(e);
    UsedValid(counts, |counts|, e);
    UsedKraft(counts, |counts|, e);
    ValuesPermuted(Used(counts, |counts|), r, T.Weights(e, 15));
    assert T.Weights(Values(r, e), 15) == Values(r, T.Weights(e, 15));
  }

  lemma CostOfUnused(counts: seq<nat>, e: seq<nat>)
    requires |e| == |counts|
    ensures forall i :: 0 <= i < |counts| && counts[i] == 0 ==> O.Costs(counts, e)[i] == 0
  {
    forall i | 0 <= i < |counts| && counts[i] == 0
      ensures O.Costs(counts, e)[i] == 0
    {
      O.MulZero(e[i]);
    }
  }

  /** The cost of all symbols is that of the used symbols in any order. */
  lemma ListedCost(counts: seq<nat>, r: seq<SymFreq>, e: seq<nat>)
    requires |e| == |counts| && multiset(r) == multiset(Used(counts, |counts|))
    ensures Indexes(r, |e|)
    ensures O.Cost(Keys(r), Values(r, e)) == O.Cost(counts, e)
  {
    hide Mul, M.Sum, Used, O.Total;
    UsedValid(counts, |counts|, e);
    var v := O.Costs(counts, e);
    CostOfUnused(counts, e);
    UsedSum(counts, |counts|, v);
    ValuesPermuted(Used(counts, |counts|), r, v);
    ListedKeys(counts, r);
    assert O.Costs(Keys(r), Values(r, e)) == Values(r, v);
    TotalWhole(v);
  }

  lemma TotalWhole(v: seq<nat>)
    ensures O.Total(v) == M.Sum(v, 0, |v|)
  {
  }

  lemma ListedKeys(counts: seq<nat>, r: seq<SymFreq>)
    requires multiset(r) == multiset(Used(counts, |counts|))
    ensures Indexes(r, |counts|)
    ensures forall p :: 0 <= p < |r| ==> r[p].key == counts[r[p].sym] > 0
  {
    UsedElements(counts, |counts|);
    forall p | 0 <= p < |r|
      ensures r[p].sym < |counts| && r[p].key == counts[r[p].sym] > 0
    {
      assert r[p] in multiset(r);
      assert r[p] in Used(counts, |counts|);
    }
  }

  /** How far the lengths may be from those of e when 2^(limit - a) bounds the number of symbols. */
  ghost predicate NearBy(counts: seq<nat>, lens: seq<nat>, e: seq<nat>, limit: nat, a: nat)
    requires |lens| == |counts| == |e| && a < limit
  {
    Fibonacci(a + 1) * O.Cost(counts, lens)
      <= Fibonacci(a + 1) * O.Cost(counts, e) + (limit - 1 - a) * CountTotal(counts, |counts|)
  }

  /** No lengths that serve the used symbols take much less room, and none takes less where the counts
      are too small for a code longer than the limit. */
  ghost predicate NearMinimum(counts: seq<nat>, lens: seq<nat>, limit: nat)
    requires |lens| == |counts|
  {
    forall e :: Serves(e, counts) ==>
      && (CountTotal(counts, |counts|) < Fibonacci(limit + 2) ==> O.Cost(counts, lens) <= O.Cost(counts, e))
      && forall a: nat :: 1 <= a < limit && |counts| <= Pow2(limit - a) ==> NearBy(counts, lens, e, limit, a)
  }

  lemma ListedLeveled(lens: Lengths, r: seq<SymFreq>, c: seq<nat>, limit: nat)
    requires SizesLeveled(lens, r, c, 0, limit) && L.Total(c, 1, limit) == |r|
    ensures Indexes(r, |lens|) && LC.Leveled(Values(r, lens), c, limit)
  {
    hide L.Total;
  }

  /** The keys of the sorted symbols are positive, ascending, and add up to all counts. */
  lemma ListedTotal(counts: seq<nat>, r: seq<SymFreq>)
    requires multiset(r) == multiset(Used(counts, |counts|)) && KeyTotal(r) == CountTotal(counts, |counts|)
    ensures O.Total(Keys(r)) == CountTotal(counts, |counts|) && M.Positive(Keys(r)) && |r| <= |counts|
  {
    hide KeyTotal, CountTotal, Used, M.Sum;
    KeysTotal(r, |r|);
    assert r[..|r|] == r;
    TotalWhole(Keys(r));
    ListedKeys(counts, r);
    ListedSize(counts, r);
  }

  lemma ListedSize(counts: seq<nat>, r: seq<SymFreq>)
    requires multiset(r) == multiset(Used(counts, |counts|))
    ensures |r| <= |counts|
  {
    hide Used, KeyTotal, CountTotal;
    UsedElements(counts, |counts|);
    assert |multiset(r)| == |multiset(Used(counts, |counts|))|;
  }

  /** What is known of the limited code of at least two symbols. */
  ghost predicate LimitedCode(r: seq<SymFreq>, l: seq<nat>, c0: seq<nat>, c: seq<nat>, limit: nat) {
    Minimum(Keys(r), l) && LC.Leveled(l, c0, 32) && L.Limited(c0, c, limit, |r|)
  }

  lemma ManyNear(counts: seq<nat>, r: seq<SymFreq>, lens: Lengths, l: seq<nat>, c0: seq<nat>, c: seq<nat>, limit: nat,
                 e: seq<nat>, a: nat)
    requires multiset(r) == multiset(Used(counts, |counts|)) && KeyTotal(r) == CountTotal(counts, |counts|)
    requires SizesLeveled(lens, r, c, 0, limit) && L.Total(c, 1, limit) == |r| && |lens| == |counts|
    requires LimitedCode(r, l, c0, c, limit) && Serves(e, counts)
    requires 1 <= a < limit && |counts| <= Pow2(limit - a)
    ensures NearBy(counts, lens, e, limit, a)
  {
    hide Pow2, L.Total, SizesLeveled, Used, KeyTotal, CountTotal, Fibonacci, O.Cost, Minimum, LC.Leveled, L.Limited,
         O.Total, Serves, O.Allowed;
    ListedLeveled(lens, r, c, limit);
    ListedAllowed(counts, r, e);
    ServesSize(e, counts);
    ListedCost(counts, r, e);
    ListedCost(counts, r, lens);
    ListedTotal(counts, r);
    LC.LimitedBound(Keys(r), l, c0, Values(r, lens), c, limit, a, Values(r, e), 15);
  }

  lemma ManyLeast(counts: seq<nat>, r: seq<SymFreq>, lens: Lengths, l: seq<nat>, c0: seq<nat>, c: seq<nat>, limit: nat,
                  e: seq<nat>)
    requires multiset(r) == multiset(Used(counts, |counts|)) && KeyTotal(r) == CountTotal(counts, |counts|)
    requires SizesLeveled(lens, r, c, 0, limit) && L.Total(c, 1, limit) == |r| && |lens| == |counts|
    requires LimitedCode(r, l, c0, c, limit) && Serves(e, counts)
    requires 1 <= limit && CountTotal(counts, |counts|) < Fibonacci(limit + 2)
    ensures |e| == |counts| && O.Cost(counts, lens) <= O.Cost(counts, e)
  {
    hide Pow2, L.Total, SizesLeveled, Used, KeyTotal, CountTotal, Fibonacci, O.Cost, Minimum, LC.Leveled, L.Limited,
         O.Total, Serves, O.Allowed;
    ListedLeveled(lens, r, c, limit);
    ListedAllowed(counts, r, e);
    ServesSize(e, counts);
    ListedCost(counts, r, e);
    ListedCost(counts, r, lens);
    ListedTotal(counts, r);
    LC.LightUnlimited(Keys(r), l, c0, Values(r, lens), c, limit);
    LC.MinimumLeast(Keys(r), l, Values(r, e), 15);
  }

  lemma ServesSize(e: seq<nat>, counts: seq<nat>)
    requires Serves(e, counts)
    ensures |e| == |counts|
  {
  }

  lemma {:induction false} FewLeast(counts: seq<nat>, lens: seq<nat>, e: seq<nat>)
    requires |lens| == |counts| && Serves(e, counts)
    requires forall i :: 0 <= i < |lens| ==> lens[i] <= 1 && (lens[i] > 0 <==> counts[i] > 0)
    ensures O.Cost(counts, lens) <= O.Cost(counts, e)
  {
    hide Mul, Feasible, M.Sum;
    forall i | 0 <= i < |counts|
      ensures O.Costs(counts, lens)[i] <= O.Costs(counts, e)[i]
    {
      MulMonotone(lens[i], e[i], counts[i]);
    }
    LC.SumAtMost(O.Costs(counts, lens), O.Costs(counts, e), 0, |counts|);
  }

  lemma NearByLeast(counts: seq<nat>, lens: seq<nat>, e: seq<nat>, limit: nat, a: nat)
    requires |lens| == |counts| == |e| && a < limit && O.Cost(counts, lens) <= O.Cost(counts, e)
    ensures NearBy(counts, lens, e, limit, a)
  {
    hide O.Cost, Fibonacci, CountTotal;
    LC.LimitedArithmetic(Fibonacci(a + 1), O.Cost(counts, lens), O.Cost(counts, e), 0, 0, limit - 1 - a,
                         CountTotal(counts, |counts|));
  }

  /** The table is nearly a least cost one. */
  lemma TableNear(counts: seq<nat>, r: seq<SymFreq>, lens: Lengths, l: seq<nat>, c0: seq<nat>, c: seq<nat>, limit: nat)
    requires multiset(r) == multiset(Used(counts, |counts|)) && KeyTotal(r) == CountTotal(counts, |counts|)
    requires SizesLeveled(lens, r, c, 0, limit) && L.Total(c, 1, limit) == |r| && |lens| == |counts| && 1 <= limit
    requires |r| >= 2 ==> LimitedCode(r, l, c0, c, limit)
    requires |r| <= 1 ==> forall i :: 0 <= i < |lens| ==> lens[i] <= 1 && (lens[i] > 0 <==> counts[i] > 0)
    ensures NearMinimum(counts, lens, limit)
  {
    hide *;
    forall e | Serves(e, counts)
      ensures |e| == |counts|
      ensures CountTotal(counts, |counts|) < Fibonacci(limit + 2) ==> O.Cost(counts, lens) <= O.Cost(counts, e)
    {
      ServesSize(e, counts);
      if |r| <= 1 {
        FewLeast(counts, lens, e);
      } else if CountTotal(counts, |counts|) < Fibonacci(limit + 2) {
        ManyLeast(counts, r, lens, l, c0, c, limit, e);
      }
    }
    forall e, a: nat | Serves(e, counts) && 1 <= a < limit && |counts| <= Pow2(limit - a)
      ensures |e| == |counts| && NearBy(counts, lens, e, limit, a)
    {
      ServesSize(e, counts);
      if |r| <= 1 {
        FewLeast(counts, lens, e);
        NearByLeast(counts, lens, e, limit, a);
      } else {
        ManyNear(counts, r, lens, l, c0, c, limit, e, a);
      }
    }
    NearFromAll(counts, lens, limit);
  }

  lemma NearFromAll(counts: seq<nat>, lens: seq<nat>, limit: nat)
    requires |lens| == |counts|
    requires forall e :: Serves(e, counts) ==>
               && |e| == |counts|
               && (CountTotal(counts, |counts|) < Fibonacci(limit + 2) ==> O.Cost(counts, lens) <= O.Cost(counts, e))
    requires forall e, a: nat :: Serves(e, counts) && 1 <= a < limit && |counts| <= Pow2(limit - a) ==>
               |e| == |counts| && NearBy(counts, lens, e, limit, a)
    ensures NearMinimum(counts, lens, limit)
  {
    hide Serves, CountTotal, Fibonacci, O.Cost, NearBy, Pow2;
  }

  // ---- the two ways the table is built

  /** The codes of a table agree with its sizes. */
  ghost predicate CodesOf(lens: seq<nat>, codes: seq<nat>) {
    |lens| <= |codes| && forall i :: 0 <= i < |lens| && lens[i] > 0 ==> codes[i] == ValueOf(Code(lens, i))
  }

  /** Given sizes: only the codes are computed. */
  method StaticTable(lens: seq<nat>, codes: array<nat>)
    requires Feasible(lens) && |lens| <= codes.Length
    modifies codes
    ensures CodesOf(lens, codes[..])
  {
    var totals := CountAll(lens);
    AssignCodes(lens, totals, 15, codes);
  }

  method CountAll(lens: seq<nat>) returns (numCodes: seq<nat>)
    requires WellFormed(lens)
    ensures |numCodes| == 33 && forall t :: 0 <= t <= 15 ==> numCodes[t] == Count(lens, t, |lens|)
  {
    hide Count;
    numCodes := seq(33, _ => 0);
    CountNothing(lens);
    var i := 0;
    while i < |lens|
      invariant i <= |lens| && |numCodes| == 33
      invariant forall t :: 0 <= t <= 15 ==> numCodes[t] == Count(lens, t, i)
    {
      CountNext(lens, i);
      numCodes := numCodes[lens[i] := numCodes[lens[i]] + 1];
      i := i + 1;
    }
  }

  lemma CountNothing(lens: Lengths)
    ensures forall t :: Count(lens, t, 0) == 0
  {
  }

  /** What the table of a set of counts must satisfy: exactly the used symbols have codes, no code is
      longer than the limit, and the code is complete unless at most one symbol is used. */
  ghost predicate TableFor(counts: seq<nat>, lens: seq<nat>, limit: nat) {
    && |lens| == |counts|
    && (forall i :: 0 <= i < |lens| ==> lens[i] <= limit && (lens[i] > 0 <==> counts[i] > 0))
    && (Complete(lens) || (Lonely(lens) && forall i :: 0 <= i < |lens| ==> lens[i] <= 1))
  }

  method CollectUsed(counts: seq<nat>) returns (used: seq<SymFreq>)
    ensures used == Used(counts, |counts|)
  {
    used := [];
    var i := 0;
    while i < |counts|
      invariant i <= |counts| && used == Used(counts, i)
    {
      if counts[i] != 0 {
        used := used + [SymFreq(counts[i], i)];
      }
      i := i + 1;
    }
  }

  /** The used symbols in ascending order of count. */
  method SortUsed(counts: seq<nat>, used: seq<SymFreq>) returns (r: seq<SymFreq>)
    requires used == Used(counts, |counts|) && CountTotal(counts, |counts|) <= 65535
    ensures KeySorted(r) && DistinctSyms(r) && multiset(r) == multiset(used)
    ensures KeyTotal(r) == CountTotal(counts, |counts|)
    ensures |r| == |used| && forall i :: 0 <= i < |r| ==> r[i].key > 0 && r[i].sym < |counts|
  {
    hide Used, DistinctSyms, KeySorted, KeyTotal;
    UsedElements(counts, |counts|);
    var syms0 := new SymFreq[|used|](i requires 0 <= i < |used| => used[i]);
    var syms1 := new SymFreq[|used|](_ => SymFreq(0, 0));
    assert syms0[..] == used;
    forall i | 0 <= i < |used|
      ensures used[i].key < 65536
    {
      CountTotalBound(counts, |counts|, used[i].sym);
    }
    var sorted := RadixSortSyms(syms0, syms1);
    r := sorted[..];
    RearrangedDistinct(used, r);
    assert |multiset(r)| == |multiset(used)|;
    forall i | 0 <= i < |r|
      ensures r[i].key > 0 && r[i].sym < |counts|
    {
      assert r[i] in multiset(r);
      assert r[i] in used;
    }
  }

  /** Limited counts of code lengths for the sorted symbols. */
  method LimitedCounts(r: seq<SymFreq>, limit: nat) returns (c: seq<nat>, ghost l: seq<nat>, ghost c0: seq<nat>)
    requires KeySorted(r) && KeyTotal(r) <= 65535 && 1 <= limit <= 15 && |r| <= Pow2(limit)
    requires forall i :: 0 <= i < |r| ==> r[i].key > 0
    ensures |c| == 33 && L.Total(c, 1, limit) == |r|
    ensures |r| >= 2 ==> L.Kraft(c, limit, limit) == Pow2(limit)
    ensures |r| == 1 ==> c[1] == 1
    ensures |r| >= 2 ==> LimitedCode(r, l, c0, c, limit)
  {
    hide Pow2, L.Total, L.Kraft, KeyTotal, T.Finished, MinRedundancy.U16, MinRedundancy.MinimumCode, LC.Leveled,
         L.Limited;
    var keys := new nat[|r|](i requires 0 <= i < |r| => r[i].key);
    assert keys[..] == Keys(r);
    KeysTotal(r, |r|);
    assert r[..|r|] == r;
    ghost var m := MinRedundancy.CalculateMinimumRedundancy(keys);
    var lens := keys[..];
    if |r| >= 2 {
      MinRedundancy.LengthsAreKraftComplete(m);
      MinimumIs(Keys(r), lens);
    }
    l := lens;
    var numCodes := new nat[33](_ => 0);
    CountCodes(lens, numCodes);
    c0 := numCodes[..];
    L.EnforceMaxCodeSize(numCodes, |r|, limit);
    c := numCodes[..];
    if |r| <= 1 {
      FewCodes(c, limit);
    }
  }

  lemma FewCodes(c: seq<nat>, limit: nat)
    requires |c| == 33 && 1 <= limit <= 32 && L.Total(c, 1, 32) <= 1
    requires L.Total(c, 1, 32) == 1 ==> c[1] == 1
    ensures L.Total(c, 1, limit) == L.Total(c, 1, 32)
  {
    TotalGrows(c, limit, 32);
    TotalGrows(c, 1, limit);
    assert L.Total(c, 1, 1) == c[1];
  }

  lemma CountedAt(lens: Lengths, c: seq<nat>, limit: nat)
    requires 1 <= limit <= 15 && Counted(lens, c, limit + 1, 0)
    ensures |c| == 33 && forall t :: 1 <= t <= limit ==> c[t] == Count(lens, t, |lens|)
  {
  }

  lemma {:induction false} CountPositive(lens: Lengths, i: nat, n: nat)
    requires i < n <= |lens|
    ensures Count(lens, lens[i], n) >= 1
  {
    if i < n - 1 { CountPositive(lens, i, n - 1); }
  }

  lemma {:induction false} TotalCovers(c: seq<nat>, t: nat, limit: nat)
    requires |c| == 33 && 1 < t <= limit <= 32
    ensures L.Total(c, 1, limit) >= c[1] + c[t]
    decreases limit
  {
    if t < limit {
      TotalCovers(c, t, limit - 1);
    } else {
      TotalGrows(c, 1, limit - 1);
      assert L.Total(c, 1, 1) == c[1];
    }
  }

  /** Exactly the used symbols received sizes. */
  lemma SizesOfUsed(counts: seq<nat>, r: seq<SymFreq>, lens: Lengths, limit: nat)
    requires |lens| == |counts| && multiset(r) == multiset(Used(counts, |counts|))
    requires Assigned(lens, r, 0, limit)
    ensures forall i :: 0 <= i < |lens| ==> lens[i] <= limit && (lens[i] > 0 <==> counts[i] > 0)
  {
    UsedElements(counts, |counts|);
    var used := Used(counts, |counts|);
    forall i | 0 <= i < |lens|
      ensures lens[i] <= limit && (lens[i] > 0 <==> counts[i] > 0)
    {
      if counts[i] > 0 {
        UsedAll(counts, |counts|, i);
        assert SymFreq(counts[i], i) in multiset(used);
        assert SymFreq(counts[i], i) in r;
      }
      if lens[i] > 0 {
        var p :| 0 <= p < |r| && r[p].sym == i;
        assert r[p] in multiset(r);
        assert r[p] in used;
      }
    }
  }

  /** A lonely symbol has length one. */
  lemma OneSize(r: seq<SymFreq>, lens: Lengths, c: seq<nat>, limit: nat)
    requires 1 <= limit <= 15 && |c| == 33
    requires |r| <= 1 && L.Total(c, 1, limit) == |r| && (|r| == 1 ==> c[1] == 1)
    requires Assigned(lens, r, 0, limit) && Counted(lens, c, limit + 1, 0)
    ensures Lonely(lens) && forall i :: 0 <= i < |lens| ==> lens[i] <= 1
  {
    hide Count, L.Total;
    forall i | 0 <= i < |lens|
      ensures lens[i] <= 1
    {
      if lens[i] > 1 {
        CountPositive(lens, i, |lens|);
        assert lens[i] <= limit;
        TotalCovers(c, lens[i], limit);
        assert false;
      }
    }
  }

  lemma SizesFit(counts: seq<nat>, r: seq<SymFreq>, lens: Lengths, c: seq<nat>, limit: nat)
    requires |lens| == |counts| && multiset(r) == multiset(Used(counts, |counts|)) && 1 <= limit <= 15
    requires Assigned(lens, r, 0, limit) && |c| == 33 && Counted(lens, c, limit + 1, 0)
    requires L.Total(c, 1, limit) == |r| && (|r| == 1 ==> c[1] == 1)
    requires |r| >= 2 ==> L.Kraft(c, limit, limit) == Pow2(limit)
    ensures TableFor(counts, lens, limit)
    ensures WellFormed(lens) && (Complete(lens) || Lonely(lens))
    ensures forall i :: 0 <= i < |lens| ==> lens[i] <= limit
  {
    hide Pow2, Complete, Lonely, Used, Assigned, Counted, L.Total, L.Kraft;
    SizesOfUsed(counts, r, lens, limit);
    if |r| >= 2 {
      CountsComplete(lens, c, limit);
    } else {
      OneSize(r, lens, c, limit);
    }
  }

  /** From counts to sizes and codes. */
  method DynamicTable(counts: seq<nat>, limit: nat, sizes: array<nat>, codes: array<nat>)
    requires 1 <= limit <= 15 && |counts| == sizes.Length && |counts| <= Pow2(limit) && |counts| <= codes.Length
    requires CountTotal(counts, |counts|) <= 65535 && sizes != codes
    modifies sizes, codes
    ensures TableFor(counts, sizes[..], limit) && CodesOf(sizes[..], codes[..])
    ensures NearMinimum(counts, sizes[..], limit)
  {
    hide Pow2, Complete, Lonely, Feasible, Used, Assigned, Counted, KeySorted, WellFormed, TableFor, SizesLeveled,
         LimitedCode, KeyTotal, NearMinimum;
    var used := CollectUsed(counts);
    UsedElements(counts, |counts|);
    var r := SortUsed(counts, used);
    ghost var l, c0;
    var numCodes;
    numCodes, l, c0 := LimitedCounts(r, limit);
    AssignSizes(r, numCodes, limit, sizes);
    var lens := sizes[..];
    SizesFit(counts, r, lens, numCodes, limit);
    if |r| <= 1 { OneSize(r, lens, numCodes, limit); }
    SizesOfUsed(counts, r, lens, limit);
    TableNear(counts, r, lens, l, c0, numCodes, limit);
    AcceptedIsFeasible(lens);
    CountedAt(lens, numCodes, limit);
    forall i | 0 <= i < codes.Length { codes[i] := 0; }
    AssignCodes(lens, numCodes, limit, codes);
    assert sizes[..] == lens;
  }
}
