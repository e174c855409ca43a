/** The tree a complete run of merging describes: depths, Kraft sum, cost and height. */
module HuffmanTree {
  import opened Bits
  import opened Merge

  /** All merges are done. */
  ghost predicate Finished(m: State) {
    Ready(m) && |m.inner| == |m.w| - 1
  }

  lemma FinishedShape(m: State)
    requires Finished(m)
    ensures |m.w| >= 2 && |m.inner| == |m.w| - 1 && |m.parent| == |m.w| - 2 && |m.leafParent| == |m.w|
    ensures Links(m.parent, m.leafParent, |m.inner|)
  {
    hide Made, Growth, Floor, Ordered, Links;
  }

  /** Distance of inner node i from the root, the last node. */
  ghost function Depth(p: seq<nat>, i: nat): nat
    requires i <= |p| && forall k :: 0 <= k < |p| ==> k < p[k] <= |p|
    decreases |p| - i
  {
    if i == |p| then 0 else Depth(p, p[i]) + 1
  }

  /** Parents of inner nodes, as the in-place algorithm leaves them. */
  ghost predicate Forward(p: seq<nat>) {
    forall k :: 0 <= k < |p| ==> k < p[k] <= |p|
  }

  /** Later nodes are no deeper. */
  lemma {:induction false} DepthMonotone(p: seq<nat>, i: nat, j: nat)
    requires Forward(p) && Sorted(p) && i <= j <= |p|
    ensures Depth(p, i) >= Depth(p, j)
    decreases |p| - i
  {
    if j < |p| {
      DepthMonotone(p, p[i], p[j]);
    }
  }

  // ---- telescoping over the merges

  /** The children of node j carry what the node carries, plus d. */
  ghost predicate Carries(y: seq<nat>, x: seq<nat>, p: seq<nat>, l: seq<nat>, j: nat, d: nat)
    requires |p| <= |x| && |l| <= |y| && j < |x|
  {
    && Upto(p, j) <= Upto(p, j + 1) && Upto(l, j) <= Upto(l, j + 1)
    && x[j] + d == Sum(x, Upto(p, j), Upto(p, j + 1)) + Sum(y, Upto(l, j), Upto(l, j + 1))
  }

  /** What the items waiting before merge j carry. */
  ghost function Stage(y: seq<nat>, x: seq<nat>, p: seq<nat>, l: seq<nat>, j: nat): nat
    requires |p| <= |x| && |l| <= |y| && Upto(p, j) <= j <= |x|
  {
    Sum(x, Upto(p, j), j) + Sum(y, Upto(l, j), |y|)
  }

  lemma {:induction false} Telescope(y: seq<nat>, x: seq<nat>, p: seq<nat>, l: seq<nat>, extra: seq<nat>, j: nat)
    requires |p| <= |x| && |l| <= |y| && |extra| == |x| && j <= |x|
    requires forall k :: 0 <= k < |p| ==> k < p[k]
    requires Sorted(p)
    requires forall k :: 0 <= k < |x| ==> Carries(y, x, p, l, k, extra[k])
    ensures Upto(p, j) <= j
    ensures Sum(y, 0, |y|) == Stage(y, x, p, l, j) + Sum(extra, 0, j)
  {
    hide Upto, Sum, Carries, Sorted;
    UptoBound(p, j);
    if j == 0 {
      UptoNone(p);
      UptoNone(l);
      SumEmpty(x, 0);
      SumEmpty(extra, 0);
    } else {
      Telescope(y, x, p, l, extra, j - 1);
      StageStep(y, x, p, l, extra[j - 1], j - 1);
      SumStep(extra, 0, j);
    }
  }

  lemma SumEmpty(x: seq<nat>, i: nat)
    requires i <= |x|
    ensures Sum(x, i, i) == 0
  {
  }

  lemma SumStep(x: seq<nat>, lo: nat, hi: nat)
    requires lo < hi <= |x|
    ensures Sum(x, lo, hi) == Sum(x, lo, hi - 1) + x[hi - 1]
  {
  }

  /** Parents lie behind their children, so at most j nodes have a parent below j. */
  lemma UptoBound(p: seq<nat>, j: nat)
    requires Sorted(p) && forall k :: 0 <= k < |p| ==> k < p[k]
    ensures Upto(p, j) <= j
  {
    if Upto(p, j) > j {
      UptoSorted(p, j, j);
      assert false;
    }
  }

  lemma StageStep(y: seq<nat>, x: seq<nat>, p: seq<nat>, l: seq<nat>, d: nat, j: nat)
    requires |p| <= |x| && |l| <= |y| && j < |x|
    requires Sorted(p) && forall k :: 0 <= k < |p| ==> k < p[k]
    requires Carries(y, x, p, l, j, d)
    ensures Upto(p, j) <= j && Upto(p, j + 1) <= j + 1
    ensures Stage(y, x, p, l, j) == Stage(y, x, p, l, j + 1) + d
  {
    UptoBound(p, j);
    UptoBound(p, j + 1);
    ChildrenBefore(p, j);
    hide Upto, Sum;
    SumSplit(x, Upto(p, j), Upto(p, j + 1), j);
    SumSplit(y, Upto(l, j), Upto(l, j + 1), |y|);
    SumStep(x, Upto(p, j + 1), j + 1);
  }

  lemma ChildrenBefore(p: seq<nat>, j: nat)
    requires Sorted(p) && forall k :: 0 <= k < |p| ==> k < p[k]
    ensures Upto(p, j + 1) <= j
  {
    if Upto(p, j + 1) > j {
      UptoSorted(p, j + 1, j);
      assert false;
    }
  }

  /** From all merges: what the leaves carry is what the root carries plus all extras. */
  lemma LeavesTotal(m: State, y: seq<nat>, x: seq<nat>, extra: seq<nat>)
    requires Finished(m) && |y| == |m.w| && |x| == |extra| == |m.inner| && |m.parent| <= |x| && |m.leafParent| <= |y|
    requires forall k :: 0 <= k < |x| ==> Carries(y, x, m.parent, m.leafParent, k, extra[k])
    ensures Sum(y, 0, |y|) == x[|x| - 1] + Sum(extra, 0, |x|)
  {
    hide Ready, Upto, Carries;
    FinishedShape(m);
    var n := |x|;
    UptoAll(m.parent, n);
    UptoAll(m.leafParent, n);
    Telescope(y, x, m.parent, m.leafParent, extra, n);
    SumStep(x, n - 1, n);
    SumEmpty(x, n - 1);
    SumEmpty(y, |y|);
  }

  ghost function NoExtra(n: nat): (z: seq<nat>)
    ensures |z| == n && forall i :: 0 <= i < n ==> z[i] == 0
  {
    seq(n, _ => 0)
  }

  lemma {:induction false} SumZeros(n: nat, hi: nat)
    requires hi <= n
    ensures Sum(NoExtra(n), 0, hi) == 0
  {
    if hi > 0 { SumZeros(n, hi - 1); }
  }

  /** The root weighs what all leaves weigh. */
  lemma RootWeight(m: State)
    requires Finished(m)
    ensures m.inner[|m.inner| - 1] == Sum(m.w, 0, |m.w|)
  {
    FinishedShape(m);
    forall k | 0 <= k < |m.inner|
      ensures Carries(m.w, m.inner, m.parent, m.leafParent, k, NoExtra(|m.inner|)[k])
    {
      MadeAt(m, k);
    }
    hide Ready, Carries, Sum;
    LeavesTotal(m, m.w, m.inner, NoExtra(|m.inner|));
    SumZeros(|m.inner|, |m.inner|);
  }

  // ---- height

  /** The weight reached from a child of weight a and its parent of weight b in e generations. */
  ghost function Fib(a: nat, b: nat, e: nat): nat
    decreases e
  {
    if e == 0 then b else Fib(b, a + b, e - 1)
  }

  lemma {:induction false} FibGrows(a: nat, b: nat, e: nat, f: nat)
    requires e <= f && a <= b
    ensures Fib(a, b, e) <= Fib(a, b, f)
    decreases e
  {
    if e == 0 {
      FibAtLeast(a, b, f);
    } else {
      FibGrows(b, a + b, e - 1, f - 1);
    }
  }

  lemma {:induction false} FibAtLeast(a: nat, b: nat, f: nat)
    ensures Fib(a, b, f) >= b
    decreases f
  {
    if f > 0 { FibAtLeast(b, a + b, f - 1); }
  }

  lemma GrowthAt(m: State, i: nat)
    requires Finished(m) && i < |m.parent|
    ensures Forward(m.parent) && i < m.parent[i] < |m.inner|
    ensures m.inner[m.parent[i]] >= m.inner[i] + 1
    ensures m.parent[i] < |m.parent| ==> m.inner[m.parent[m.parent[i]]] >= m.inner[m.parent[i]] + m.inner[i]
  {
    FinishedShape(m);
    hide Made, Floor, Ordered;
  }

  lemma {:induction false} Climb(m: State, i: nat, a: nat, b: nat)
    requires Finished(m) && Forward(m.parent) && i < |m.parent| && m.parent[i] < |m.inner|
    requires a <= m.inner[i] && b <= m.inner[m.parent[i]]
    ensures m.inner[|m.inner| - 1] >= Fib(a, b, Depth(m.parent, m.parent[i]))
    decreases |m.parent| - i
  {
    FinishedShape(m);
    hide Ready, Links;
    GrowthAt(m, i);
    var p := m.parent[i];
    if p < |m.parent| {
      GrowthAt(m, p);
      Climb(m, p, b, a + b);
    }
  }

  /** With a total weight of at most 65535 no inner node is deeper than 22. */
  lemma HeightBound(m: State, i: nat)
    requires Finished(m) && i < |m.inner| && Sum(m.w, 0, |m.w|) <= 65535
    ensures Forward(m.parent) && i <= |m.parent| && Depth(m.parent, i) <= 22
  {
    FinishedShape(m);
    RootWeight(m);
    assert Forward(m.parent);
    if i < |m.parent| {
      GrowthAt(m, i);
      assert m.inner[i] >= 1;
      var e := Depth(m.parent, m.parent[i]);
      Climb(m, i, 1, 2);
      FibNumber();
      if e >= 22 {
        FibGrows(1, 2, 22, e);
        assert false;
      }
    }
  }

  lemma FibNumber()
    ensures Fib(1, 2, 22) == 75025
  {
    assert Fib(1, 2, 22) == Fib(89, 144, 13);
    assert Fib(89, 144, 13) == 75025;
  }

  // ---- depths of the leaves

  ghost function InnerDepths(m: State): (d: seq<nat>)
    requires |m.inner| == |m.parent| + 1 && Forward(m.parent)
    ensures |d| == |m.inner| && forall i :: 0 <= i < |d| ==> d[i] == Depth(m.parent, i)
  {
    seq(|m.inner|, i requires 0 <= i < |m.inner| => Depth(m.parent, i))
  }

  ghost predicate LeafLinks(m: State) {
    forall k :: 0 <= k < |m.leafParent| ==> m.leafParent[k] <= |m.parent|
  }

  ghost function LeafDepths(m: State): (d: seq<nat>)
    requires Forward(m.parent) && LeafLinks(m)
    ensures |d| == |m.leafParent| && forall k :: 0 <= k < |d| ==> d[k] == Depth(m.parent, m.leafParent[k]) + 1
  {
    seq(|m.leafParent|, k requires 0 <= k < |m.leafParent| => Depth(m.parent, m.leafParent[k]) + 1)
  }

  lemma FinishedLinks(m: State)
    requires Finished(m)
    ensures |m.inner| == |m.parent| + 1 == |m.w| - 1 && |m.leafParent| == |m.w| && Forward(m.parent) && LeafLinks(m)
    ensures Sorted(m.parent) && Sorted(m.leafParent) && forall i :: 0 <= i < |m.parent| ==> i < m.parent[i] < |m.inner|
  {
    FinishedShape(m);
  }

  /** The two children of node j: their ranges, and that they are two. */
  lemma ChildRanges(m: State, j: nat)
    requires Finished(m) && j < |m.inner|
    ensures var a, b := Upto(m.parent, j), Upto(m.parent, j + 1);
            var c, d := Upto(m.leafParent, j), Upto(m.leafParent, j + 1);
            && a <= b && c <= d && b - a + (d - c) == 2
            && (forall i :: a <= i < b ==> m.parent[i] == j) && (forall i :: c <= i < d ==> m.leafParent[i] == j)
  {
    FinishedLinks(m);
    BinaryAt(m, j);
    BinaryAt(m, j + 1);
    hide Ready;
    UptoMonotone(m.parent, j, j + 1);
    UptoMonotone(m.leafParent, j, j + 1);
    RangeParent(m.parent, j);
    RangeParent(m.leafParent, j);
  }

  lemma BinaryAt(m: State, j: nat)
    requires Finished(m) && j <= |m.inner|
    ensures Upto(m.parent, j) + Upto(m.leafParent, j) == 2 * j
  {
    hide Growth, Floor, Ordered, Links, Weighs, Greedy;
    assert Binary(m.parent, m.leafParent, j);
  }

  lemma RangeParent(p: seq<nat>, j: nat)
    requires Sorted(p)
    ensures forall i :: Upto(p, j) <= i < Upto(p, j + 1) ==> p[i] == j
  {
    forall i | Upto(p, j) <= i < Upto(p, j + 1)
      ensures p[i] == j
    {
      UptoSorted(p, j, i);
      UptoSorted(p, j + 1, i);
    }
  }

  ghost function Weights(d: seq<nat>, unit: nat): (x: seq<nat>)
    requires forall i :: 0 <= i < |d| ==> d[i] <= unit
    ensures |x| == |d| && forall i :: 0 <= i < |d| ==> x[i] == Pow2(unit - d[i])
  {
    seq(|d|, i requires 0 <= i < |d| => Pow2(unit - d[i]))
  }

  lemma {:induction false} SumConstant(x: seq<nat>, lo: nat, hi: nat, v: nat)
    requires lo <= hi <= |x| && forall i :: lo <= i < hi ==> x[i] == v
    ensures Sum(x, lo, hi) == Mul(hi - lo, v)
  {
    if lo < hi { SumConstant(x, lo, hi - 1, v); }
  }

  ghost predicate Within(d: seq<nat>, unit: nat) {
    forall i :: 0 <= i < |d| ==> d[i] <= unit
  }

  /** The leaves of the tree have Kraft sum one. */
  lemma KraftOne(m: State, unit: nat)
    requires Finished(m) && Forward(m.parent) && LeafLinks(m) && |m.inner| == |m.parent| + 1
    requires Within(InnerDepths(m), unit) && Within(LeafDepths(m), unit)
    ensures Sum(Weights(LeafDepths(m), unit), 0, |m.leafParent|) == Pow2(unit)
  {
    hide Ready, Carries, Sum, Upto, Pow2;
    FinishedLinks(m);
    var x, y := Weights(InnerDepths(m), unit), Weights(LeafDepths(m), unit);
    forall j | 0 <= j < |m.inner|
      ensures Carries(y, x, m.parent, m.leafParent, j, NoExtra(|m.inner|)[j])
    {
      KraftCarries(m, unit, j);
    }
    LeavesTotal(m, y, x, NoExtra(|m.inner|));
    SumZeros(|m.inner|, |m.inner|);
    RootDepth(m.parent);
    assert InnerDepths(m)[|m.inner| - 1] == 0;
  }

  lemma RootDepth(p: seq<nat>)
    requires Forward(p)
    ensures Depth(p, |p|) == 0
  {
  }

  lemma ChildDepth(p: seq<nat>, i: nat)
    requires Forward(p) && i < |p|
    ensures Depth(p, i) == Depth(p, p[i]) + 1
  {
  }

  /** Two children of value v under a node of value 2v. */
  lemma TwoChildren(y: seq<nat>, x: seq<nat>, p: seq<nat>, l: seq<nat>, j: nat, v: nat)
    requires |p| <= |x| && |l| <= |y| && j < |x|
    requires Upto(p, j) <= Upto(p, j + 1) && Upto(l, j) <= Upto(l, j + 1)
    requires Upto(p, j + 1) - Upto(p, j) + (Upto(l, j + 1) - Upto(l, j)) == 2
    requires forall i :: Upto(p, j) <= i < Upto(p, j + 1) ==> x[i] == v
    requires forall i :: Upto(l, j) <= i < Upto(l, j + 1) ==> y[i] == v
    requires x[j] == 2 * v
    ensures Carries(y, x, p, l, j, 0)
  {
    hide Upto, Sum;
    var b, d := Upto(p, j + 1) - Upto(p, j), Upto(l, j + 1) - Upto(l, j);
    SumConstant(x, Upto(p, j), Upto(p, j + 1), v);
    SumConstant(y, Upto(l, j), Upto(l, j + 1), v);
    MulAdd(b, d, v);
    MulIsProduct(2, v);
  }

  lemma KraftCarries(m: State, unit: nat, j: nat)
    requires Finished(m) && Forward(m.parent) && LeafLinks(m) && |m.inner| == |m.parent| + 1
    requires Within(InnerDepths(m), unit) && Within(LeafDepths(m), unit) && j < |m.inner|
    ensures |m.leafParent| == |m.w|
    ensures Carries(Weights(LeafDepths(m), unit), Weights(InnerDepths(m), unit), m.parent, m.leafParent, j, 0)
  {
    hide Ready, Upto, Sum, Pow2, Carries, Depth, Sorted;
    FinishedLinks(m);
    ChildRanges(m, j);
    var e := Depth(m.parent, j) + 1;
    forall i | 0 <= i < |m.parent| && m.parent[i] == j
      ensures InnerDepths(m)[i] == e
    {
      ChildDepth(m.parent, i);
    }
    var a, b := Upto(m.parent, j), Upto(m.parent, j + 1);
    assert e <= unit by {
      if a < b {
        assert InnerDepths(m)[a] == e;
      } else {
        assert LeafDepths(m)[Upto(m.leafParent, j)] == e;
      }
    }
    HalfWeight(unit, e);
    assert InnerDepths(m)[j] == e - 1;
    TwoChildren(Weights(LeafDepths(m), unit), Weights(InnerDepths(m), unit), m.parent, m.leafParent, j, Pow2(unit - e));
  }

  lemma HalfWeight(unit: nat, e: nat)
    requires 1 <= e <= unit
    ensures Pow2(unit - (e - 1)) == 2 * Pow2(unit - e)
  {
  }
}
