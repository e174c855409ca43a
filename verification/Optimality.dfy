/** No prefix code beats the lengths of the merging: every assignment of lengths with Kraft sum at
    most one costs at least as much. */
module Optimality {
  import opened Bits
  import opened Merge
  import opened HuffmanTree

  // ---- sums over changed sequences

  function Total(s: seq<nat>): nat {
    Sum(s, 0, |s|)
  }

  function RemoveAt<T>(s: seq<T>, i: nat): seq<T>
    requires i < |s|
  {
    s[..i] + s[i + 1..]
  }

  function InsertAt<T>(s: seq<T>, i: nat, x: T): seq<T>
    requires i <= |s|
  {
    s[..i] + [x] + s[i..]
  }

  lemma SumShift(s: seq<nat>, t: seq<nat>, lo: nat, hi: nat, k: int)
    requires lo <= hi <= |s| && 0 <= lo + k && hi + k <= |t|
    requires forall i :: lo <= i < hi ==> s[i] == t[i + k]
    ensures Sum(s, lo, hi) == Sum(t, lo + k, hi + k)
  {
    if lo < hi { SumShift(s, t, lo, hi - 1, k); }
  }

  lemma SumRemove(s: seq<nat>, i: nat)
    requires i < |s|
    ensures Total(s) == Total(RemoveAt(s, i)) + s[i]
  {
    hide Sum;
    var r := RemoveAt(s, i);
    SumSplit(s, 0, i, |s|);
    SumSplit(s, i, i + 1, |s|);
    SumStep(s, i, i + 1);
    SumEmpty(s, i);
    SumSplit(r, 0, i, |r|);
    SumSame(s, r, 0, i);
    SumShift(s, r, i + 1, |s|, -1);
  }

  lemma SumInsert(s: seq<nat>, i: nat, x: nat)
    requires i <= |s|
    ensures Total(InsertAt(s, i, x)) == Total(s) + x
  {
    hide Sum;
    SumRemove(InsertAt(s, i, x), i);
    assert RemoveAt(InsertAt(s, i, x), i) == s;
  }

  lemma SumUpdate(s: seq<nat>, i: nat, x: nat)
    requires i < |s|
    ensures Total(s[i := x]) + s[i] == Total(s) + x
  {
    hide Sum;
    SumRemove(s, i);
    SumRemove(s[i := x], i);
    assert RemoveAt(s[i := x], i) == RemoveAt(s, i);
  }

  // ---- cost and Kraft sum of an assignment

  ghost function Costs(w: seq<nat>, d: seq<nat>): (c: seq<nat>)
    requires |w| == |d|
    ensures |c| == |w| && forall i :: 0 <= i < |w| ==> c[i] == Mul(d[i], w[i])
  {
    seq(|w|, i requires 0 <= i < |w| => Mul(d[i], w[i]))
  }

  /** The length of all code words, weighted. */
  ghost function Cost(w: seq<nat>, d: seq<nat>): nat
    requires |w| == |d|
  {
    Total(Costs(w, d))
  }

  ghost function KraftSum(d: seq<nat>, unit: nat): nat
    requires Within(d, unit)
  {
    Total(Weights(d, unit))
  }

  /** The lengths d admit a prefix code. */
  ghost predicate Allowed(d: seq<nat>, unit: nat) {
    Within(d, unit) && KraftSum(d, unit) <= Pow2(unit)
  }

  lemma {:induction false} MulDistribute(a: nat, v: nat, w: nat)
    ensures Mul(a, v + w) == Mul(a, v) + Mul(a, w)
  {
    if a > 0 { MulDistribute(a - 1, v, w); }
  }

  /** Giving the lighter of two items the greater length does not raise the cost. */
  lemma Swap(w: seq<nat>, d: seq<nat>, unit: nat, i: nat, k: nat) returns (e: seq<nat>)
    requires |w| == |d| && i < |d| && k < |d| && Within(d, unit)
    requires w[i] <= w[k] && d[i] <= d[k]
    ensures e == d[i := d[k]][k := d[i]] && Within(e, unit)
    ensures Cost(w, e) <= Cost(w, d) && KraftSum(e, unit) == KraftSum(d, unit)
  {
    hide Sum, Pow2, Mul;
    e := d[i := d[k]][k := d[i]];
    var c, x := Costs(w, d), Weights(d, unit);
    SumUpdate(c, i, Mul(d[k], w[i]));
    SumUpdate(c[i := Mul(d[k], w[i])], k, Mul(d[i], w[k]));
    SumUpdate(x, i, x[k]);
    SumUpdate(x[i := x[k]], k, x[i]);
    assert Weights(e, unit) == x[i := x[k]][k := x[i]];
    if i == k {
      assert e == d;
    } else {
      var c1: seq<nat> := c[i := Mul(d[k], w[i])];
      assert Costs(w, e) == c1[k := Mul(d[i], w[k])];
      MulAdd(d[i], d[k] - d[i], w[i]);
      MulAdd(d[i], d[k] - d[i], w[k]);
      MulMonotone2(d[k] - d[i], w[i], w[k]);
    }
  }

  /** The position of a greatest length, other than skip. */
  lemma MaxExcept(d: seq<nat>, skip: nat, n: nat) returns (k: nat)
    requires 1 <= n <= |d| && (n == 1 ==> skip != 0)
    ensures k < n && k != skip && forall i :: 0 <= i < n && i != skip ==> d[i] <= d[k]
  {
    if n == 1 || (n == 2 && skip == 0) {
      k := n - 1;
    } else {
      k := MaxExcept(d, skip, n - 1);
      if n - 1 != skip && d[n - 1] > d[k] { k := n - 1; }
    }
  }

  /** x and y are the two lightest items. */
  ghost predicate Lightest(w: seq<nat>, x: nat, y: nat) {
    && x < |w| && y < |w| && x != y && w[x] <= w[y]
    && forall i :: 0 <= i < |w| && i != x ==> w[y] <= w[i]
  }

  /** The two greatest lengths lie on x and y. */
  ghost predicate Longest(d: seq<nat>, x: nat, y: nat) {
    && x < |d| && y < |d| && x != y && d[y] <= d[x]
    && forall i :: 0 <= i < |d| && i != x ==> d[i] <= d[y]
  }

  /** The two lightest items may be given the two greatest lengths. */
  lemma LightestLongest(w: seq<nat>, d: seq<nat>, unit: nat, x: nat, y: nat) returns (f: seq<nat>)
    requires |w| == |d| && Allowed(d, unit) && Lightest(w, x, y)
    ensures |f| == |d| && Allowed(f, unit) && Longest(f, x, y) && Cost(w, f) <= Cost(w, d)
  {
    hide Cost, KraftSum, Pow2;
    var p := MaxExcept(d, |d|, |d|);
    var e := Swap(w, d, unit, x, p);
    var q := MaxExcept(e, x, |e|);
    f := Swap(w, e, unit, y, q);
  }

  // ---- shortening and merging

  ghost predicate Multiple(v: nat, q: nat) {
    exists k: nat :: v == Mul(k, q)
  }

  lemma {:induction false} SumMultiple(s: seq<nat>, q: nat, n: nat) returns (c: nat)
    requires n <= |s| && forall i :: 0 <= i < n ==> Multiple(s[i], q)
    ensures Sum(s, 0, n) == Mul(c, q)
  {
    if n == 0 {
      c := 0;
    } else {
      var c0 := SumMultiple(s, q, n - 1);
      assert Multiple(s[n - 1], q);
      var k: nat :| s[n - 1] == Mul(k, q);
      MulAdd(c0, k, q);
      c := c0 + k;
    }
  }

  lemma WeightMultiple(unit: nat, d: nat, e: nat)
    requires d <= e <= unit
    ensures Pow2(unit - d) == Mul(Pow2(e - d), Pow2(unit - e))
  {
    MulPow2(e - d, unit - e);
  }

  /** Beside a strictly longer code there is room for one more as long as the second longest. */
  lemma RoomForEqual(d: seq<nat>, unit: nat, x: nat, y: nat)
    requires Allowed(d, unit) && Longest(d, x, y)
    ensures KraftSum(d, unit) - Pow2(unit - d[x]) + Pow2(unit - d[y]) <= Pow2(unit)
    ensures d[y] >= 1
  {
    hide Pow2, Sum, Mul;
    var s := Weights(d, unit);
    var r := RemoveAt(s, x);
    SumRemove(s, x);
    var q := Pow2(unit - d[y]);
    forall i | 0 <= i < |r|
      ensures Multiple(r[i], q)
    {
      var o := if i < x then i else i + 1;
      WeightMultiple(unit, d[o], d[y]);
      assert r[i] == Mul(Pow2(d[y] - d[o]), q);
    }
    var c := SumMultiple(r, q, |r|);
    MulPow2(d[y], unit - d[y]);
    RoomArithmetic(c, Pow2(d[y]), q, Pow2(unit - d[x]));
    var z := if y < x then y else y - 1;
    assert r[z] == q;
    SumRemove(r, z);
    assert d[y] == 0 ==> q == Pow2(unit);
  }

  lemma RoomArithmetic(c: nat, p: nat, q: nat, one: nat)
    requires one > 0 && Mul(c, q) + one <= Mul(p, q)
    ensures Mul(c, q) + q <= Mul(p, q)
  {
    if c >= p {
      MulMonotone(p, c, q);
      assert false;
    }
    MulMonotone(c + 1, p, q);
  }

  /** Items after the two lightest are replaced by one of their joint weight at position at. */
  ghost function Merged(w: seq<nat>, i: nat, k: nat, at: nat, v: nat): seq<nat>
    requires i < k < |w| && at <= |w| - 2
  {
    InsertAt(RemoveAt(RemoveAt(w, k), i), at, v)
  }

  lemma MergedTotal(s: seq<nat>, i: nat, k: nat, at: nat, v: nat)
    requires i < k < |s| && at <= |s| - 2
    ensures Total(Merged(s, i, k, at, v)) + s[i] + s[k] == Total(s) + v
  {
    hide Sum;
    SumRemove(s, k);
    SumRemove(RemoveAt(s, k), i);
    SumInsert(RemoveAt(RemoveAt(s, k), i), at, v);
  }

  lemma MergedElements(s: seq<nat>, i: nat, k: nat, at: nat, v: nat)
    requires i < k < |s| && at <= |s| - 2
    ensures |Merged(s, i, k, at, v)| == |s| - 1
    ensures forall n :: 0 <= n < |s| - 1 ==>
              Merged(s, i, k, at, v)[n] == if n == at then v else s[Origin(i, k, at, n)]
    ensures forall n :: 0 <= n < |s| - 1 && n != at ==>
              0 <= Origin(i, k, at, n) < |s| && Origin(i, k, at, n) != i && Origin(i, k, at, n) != k
  {
  }

  /** Where an item of the merged list comes from. */
  function Origin(i: nat, k: nat, at: nat, n: nat): nat {
    var a := if n < at then n else if n == at then 0 else n - 1;
    var b := if a < i then a else a + 1;
    if b < k then b else b + 1
  }

  /** Joining two codes of the greatest lengths saves their weight and stays allowed. */
  lemma MergeStep(w: seq<nat>, d: seq<nat>, unit: nat, x: nat, y: nat, i: nat, k: nat, at: nat)
    returns (e: seq<nat>)
    requires |w| == |d| && Allowed(d, unit) && Longest(d, x, y)
    requires i < k < |w| && at <= |w| - 2 && ((x == i && y == k) || (x == k && y == i))
    ensures |e| == |w| - 1 == |Merged(w, i, k, at, w[i] + w[k])| && Allowed(e, unit)
    ensures Cost(Merged(w, i, k, at, w[i] + w[k]), e) + w[i] + w[k] <= Cost(w, d)
  {
    hide Sum, Pow2, Mul, Merged, Origin;
    RoomForEqual(d, unit, x, y);
    var l := d[y] - 1;
    var v := w[i] + w[k];
    e := Merged(d, i, k, at, l);
    MergedElements(d, i, k, at, l);
    MergedElements(w, i, k, at, v);
    var s, c := Weights(d, unit), Costs(w, d);
    MergedElements(s, i, k, at, Pow2(unit - l));
    MergedElements(c, i, k, at, Mul(l, v));
    forall n | 0 <= n < |e|
      ensures e[n] <= unit
    {
      if n != at { assert e[n] == d[Origin(i, k, at, n)]; }
    }
    assert Weights(e, unit) == Merged(s, i, k, at, Pow2(unit - l));
    assert Costs(Merged(w, i, k, at, v), e) == Merged(c, i, k, at, Mul(l, v));
    MergedTotal(s, i, k, at, Pow2(unit - l));
    MergedTotal(c, i, k, at, Mul(l, v));
    HalfWeight(unit, d[y]);
    MergeSaves(d[x], d[y], w[x], w[y]);
  }

  lemma MergeSaves(a: nat, b: nat, u: nat, v: nat)
    requires 1 <= b <= a
    ensures Mul(b - 1, u + v) + u + v <= Mul(a, u) + Mul(b, v)
  {
    MulMonotone(b, a, u);
    MulDistribute(b - 1, u, v);
  }

  // ---- the merging, stage by stage

  /** The weights waiting before merge j. */
  ghost function Items(m: State, j: nat): seq<nat>
    requires j <= |m.inner| && Upto(m.parent, j) <= j && |m.leafParent| <= |m.w|
  {
    m.inner[Upto(m.parent, j)..j] + m.w[Upto(m.leafParent, j)..]
  }

  lemma ItemsExist(m: State, j: nat)
    requires Finished(m) && j <= |m.inner|
    ensures Upto(m.parent, j) <= j && |m.leafParent| <= |m.w|
  {
    FinishedLinks(m);
    hide Ready, Upto;
    UptoBound(m.parent, j);
  }

  lemma MergedFront(a: seq<nat>, b: seq<nat>, v: nat)
    requires |a| >= 2
    ensures Merged(a + b, 0, 1, |a| - 2, v) == a[2..] + [v] + b
  {
    assert RemoveAt(RemoveAt(a + b, 1), 0) == a[2..] + b;
  }

  lemma MergedBoth(a: seq<nat>, b: seq<nat>, v: nat)
    requires |a| >= 1 && |b| >= 1
    ensures Merged(a + b, 0, |a|, |a| - 1, v) == a[1..] + [v] + b[1..]
  {
    assert RemoveAt(a + b, |a|) == a + b[1..];
    assert RemoveAt(a + b[1..], 0) == a[1..] + b[1..];
  }

  lemma MergedBack(a: seq<nat>, b: seq<nat>, v: nat)
    requires |b| >= 2
    ensures Merged(a + b, |a|, |a| + 1, |a|, v) == a + [v] + b[2..]
  {
    assert RemoveAt(a + b, |a| + 1) == a + [b[0]] + b[2..];
    assert RemoveAt(a + [b[0]] + b[2..], |a|) == a + b[2..];
  }

  lemma SumOne(w: seq<nat>, a: nat)
    requires a < |w|
    ensures Sum(w, a, a + 1) == w[a]
  {
    SumEmpty(w, a);
  }

  lemma SumTwo(w: seq<nat>, a: nat)
    requires a + 1 < |w|
    ensures Sum(w, a, a + 2) == w[a] + w[a + 1]
  {
    SumOne(w, a);
    SumStep(w, a, a + 2);
  }

  /** The two children of node j among the items, as positions i < k, ordered by weight as x, y. */
  lemma StageChildren(m: State, j: nat) returns (x: nat, y: nat, i: nat, k: nat, at: nat)
    requires Finished(m) && j < |m.inner|
    requires Upto(m.parent, j) <= j && Upto(m.parent, j + 1) <= j + 1 && |m.leafParent| <= |m.w|
    ensures i < k < |Items(m, j)| && at <= |Items(m, j)| - 2
    ensures (x == i && y == k) || (x == k && y == i)
    ensures Lightest(Items(m, j), x, y)
    ensures Items(m, j)[i] + Items(m, j)[k] == m.inner[j]
    ensures Items(m, j + 1) == Merged(Items(m, j), i, k, at, m.inner[j])
  {
    hide Ready, Upto, Sum, Merged, Lightest, Sorted;
    var a, b := Upto(m.parent, j), Upto(m.parent, j + 1);
    var c, d := Upto(m.leafParent, j), Upto(m.leafParent, j + 1);
    ChildRanges(m, j);
    FinishedLinks(m);
    ChildrenBefore(m.parent, j);
    ChildWeights(m, j);
    var its := Items(m, j);
    at := j - b;
    var front, back, v := m.inner[a..j], m.w[c..], m.inner[j];
    assert m.inner[b..j + 1] == m.inner[b..j] + [v];
    if b - a == 2 {
      i, k := 0, 1;
      MergedFront(front, back, v);
      assert front[2..] == m.inner[b..j];
    } else if b - a == 1 {
      i, k := 0, j - a;
      MergedBoth(front, back, v);
      assert front[1..] == m.inner[b..j] && back[1..] == m.w[d..];
    } else {
      i, k := j - a, j - a + 1;
      MergedBack(front, back, v);
      assert back[2..] == m.w[d..];
    }
    x, y := if its[i] <= its[k] then i else k, if its[i] <= its[k] then k else i;
    StageLightest(m, j, x, y, i, k);
  }

  lemma ChildWeights(m: State, j: nat)
    requires Finished(m) && j < |m.inner|
    ensures var a, b := Upto(m.parent, j), Upto(m.parent, j + 1);
            var c, d := Upto(m.leafParent, j), Upto(m.leafParent, j + 1);
            && a <= b <= |m.parent| && c <= d <= |m.w| && |m.parent| <= |m.inner|
            && m.inner[j] == Sum(m.inner, a, b) + Sum(m.w, c, d)
            && (b - a == 2 ==> Sum(m.inner, a, b) == m.inner[a] + m.inner[a + 1])
            && (b - a == 1 ==> Sum(m.inner, a, b) == m.inner[a])
            && (b - a == 0 ==> Sum(m.inner, a, b) == 0)
            && (d - c == 2 ==> Sum(m.w, c, d) == m.w[c] + m.w[c + 1])
            && (d - c == 1 ==> Sum(m.w, c, d) == m.w[c])
            && (d - c == 0 ==> Sum(m.w, c, d) == 0)
  {
    hide Growth, Floor, Ordered, Links, Greedy, Upto, Sum;
    FinishedShape(m);
    MadeAt(m, j);
    ShortSums(m.inner, Upto(m.parent, j), Upto(m.parent, j + 1));
    ShortSums(m.w, Upto(m.leafParent, j), Upto(m.leafParent, j + 1));
  }

  lemma ShortSums(w: seq<nat>, a: nat, b: nat)
    requires a <= b <= |w|
    ensures b - a == 2 ==> Sum(w, a, b) == w[a] + w[a + 1]
    ensures b - a == 1 ==> Sum(w, a, b) == w[a]
    ensures b - a == 0 ==> Sum(w, a, b) == 0
  {
    hide Sum;
    if b - a == 2 { SumTwo(w, a); }
    if b - a == 1 { SumOne(w, a); }
    if b == a { SumEmpty(w, a); }
  }

  /** The children of node j weigh at most what the other items weigh. */
  lemma StageLightest(m: State, j: nat, x: nat, y: nat, i: nat, k: nat)
    requires Finished(m) && j < |m.inner|
    requires Upto(m.parent, j) <= j && |m.leafParent| <= |m.w|
    requires var a, b := Upto(m.parent, j), Upto(m.parent, j + 1);
             && i < k < |Items(m, j)| && a <= b
             && (if b - a == 2 then i == 0 && k == 1 else if b - a == 1 then i == 0 && k == j - a
                 else b == a && i == j - a && k == j - a + 1)
    requires Upto(m.parent, j + 1) <= j
    requires (x == i && y == k) || (x == k && y == i)
    requires Items(m, j)[x] <= Items(m, j)[y]
    ensures Lightest(Items(m, j), x, y)
  {
    hide Ready, Upto;
    var a, b := Upto(m.parent, j), Upto(m.parent, j + 1);
    var c, d := Upto(m.leafParent, j), Upto(m.leafParent, j + 1);
    var its := Items(m, j);
    ChildRanges(m, j);
    FinishedLinks(m);
    var t := ThresholdOf(m, j);
    if b - a == 2 {
      assert its[0] == m.inner[a] && its[1] == m.inner[a + 1];
    } else if b - a == 1 {
      assert its[0] == m.inner[a] && its[k] == m.w[c];
    } else {
      assert its[i] == m.w[c] && its[k] == m.w[c + 1];
    }
    forall n | 0 <= n < |its| && n != x
      ensures its[y] <= its[n]
    {
      if n != i && n != k {
        if n < j - a {
          assert its[n] == m.inner[a + n];
        } else {
          assert its[n] == m.w[c + (n - (j - a))];
        }
      }
    }
  }

  lemma ThresholdOf(m: State, j: nat) returns (t: nat)
    requires Finished(m) && j < |m.inner|
    ensures Bounds(m) && Threshold(m.w, m.inner, m.parent, m.leafParent, j, t)
  {
    hide Growth, Floor, Ordered, Links, Weighs;
    MadeAt(m, j);
    t :| Threshold(m.w, m.inner, m.parent, m.leafParent, j, t);
  }

  /** Whatever lengths the waiting items get, the remaining merges cost at least their weights. */
  lemma {:induction false} LowerBound(m: State, unit: nat, j: nat, d: seq<nat>)
    requires Finished(m) && j <= |m.inner|
    requires Upto(m.parent, j) <= j && |m.leafParent| <= |m.w|
    requires |d| == |Items(m, j)| && Allowed(d, unit)
    ensures Cost(Items(m, j), d) >= Sum(m.inner, j, |m.inner|)
    decreases |m.inner| - j
  {
    hide Ready, Upto, Sum, Cost, Allowed, Items;
    if j == |m.inner| {
      SumEmpty(m.inner, j);
    } else {
      ItemsExist(m, j + 1);
      var x, y, i, k, at := StageChildren(m, j);
      var f := LightestLongest(Items(m, j), d, unit, x, y);
      var e := MergeStep(Items(m, j), f, unit, x, y, i, k, at);
      LowerBound(m, unit, j + 1, e);
      SumSplit(m.inner, j, j + 1, |m.inner|);
      SumStep(m.inner, j, j + 1);
      SumEmpty(m.inner, j);
    }
  }

  // ---- the cost of the tree itself

  lemma {:induction false} SumScaled(c: seq<nat>, w: seq<nat>, e: nat, lo: nat, hi: nat)
    requires lo <= hi <= |w| && |c| == |w| && forall i :: lo <= i < hi ==> c[i] == Mul(e, w[i])
    ensures Sum(c, lo, hi) == Mul(e, Sum(w, lo, hi))
  {
    hide Mul;
    if lo < hi {
      SumScaled(c, w, e, lo, hi - 1);
      MulDistribute(e, Sum(w, lo, hi - 1), w[hi - 1]);
    } else {
      MulZero(e);
    }
  }

  lemma {:induction false} MulZero(e: nat)
    ensures Mul(e, 0) == 0
  {
    if e > 0 { MulZero(e - 1); }
  }

  lemma CostCarries(m: State, j: nat)
    requires Finished(m) && Forward(m.parent) && LeafLinks(m) && |m.inner| == |m.parent| + 1
    requires |m.leafParent| == |m.w| && j < |m.inner|
    ensures Carries(Costs(m.w, LeafDepths(m)), Costs(m.inner, InnerDepths(m)), m.parent, m.leafParent, j, m.inner[j])
  {
    hide Ready, Upto, Sum, Mul, Depth, Sorted;
    FinishedLinks(m);
    ChildRanges(m, j);
    ChildWeights(m, j);
    var e := Depth(m.parent, j) + 1;
    var x, y := Costs(m.inner, InnerDepths(m)), Costs(m.w, LeafDepths(m));
    var a, b := Upto(m.parent, j), Upto(m.parent, j + 1);
    var c, d := Upto(m.leafParent, j), Upto(m.leafParent, j + 1);
    forall i | a <= i < b
      ensures x[i] == Mul(e, m.inner[i])
    {
      ChildDepth(m.parent, i);
    }
    SumScaled(x, m.inner, e, a, b);
    SumScaled(y, m.w, e, c, d);
    MulDistribute(e, Sum(m.inner, a, b), Sum(m.w, c, d));
    MulAdd(e - 1, 1, m.inner[j]);
    MulIsProduct(1, m.inner[j]);
  }

  /** The tree costs exactly the weights of its merges. */
  lemma TreeCost(m: State)
    requires Finished(m) && Forward(m.parent) && LeafLinks(m)
    ensures |LeafDepths(m)| == |m.w| && Cost(m.w, LeafDepths(m)) == Sum(m.inner, 0, |m.inner|)
  {
    hide Ready, Upto, Sum, Mul, Carries;
    FinishedLinks(m);
    var x, y := Costs(m.inner, InnerDepths(m)), Costs(m.w, LeafDepths(m));
    forall j | 0 <= j < |m.inner|
      ensures Carries(y, x, m.parent, m.leafParent, j, m.inner[j])
    {
      CostCarries(m, j);
    }
    LeavesTotal(m, y, x, m.inner);
    RootDepth(m.parent);
    NoMul(m.inner[|m.inner| - 1]);
  }

  lemma NoMul(w: nat)
    ensures Mul(0, w) == 0
  {
  }

  /** Minimum redundancy: any lengths that admit a prefix code cost at least as much. */
  lemma MinimumCost(m: State, unit: nat, d: seq<nat>)
    requires Finished(m) && Forward(m.parent) && LeafLinks(m)
    requires |d| == |m.w| && Allowed(d, unit)
    ensures |LeafDepths(m)| == |m.w| && Cost(m.w, LeafDepths(m)) <= Cost(m.w, d)
  {
    hide Ready, Sum, Cost, Allowed;
    TreeCost(m);
    UptoNone(m.parent);
    UptoNone(m.leafParent);
    ItemsExist(m, 0);
    assert Items(m, 0) == m.w;
    LowerBound(m, unit, 0, d);
  }
}
