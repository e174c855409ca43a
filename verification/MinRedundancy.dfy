/** tdefl_calculate_minimum_redundancy: Huffman code lengths computed in place, in three passes over
    one array: merging with parent links, links to depths, depths to leaf lengths. */
module MinRedundancy {
  import opened Bits
  import opened Merge
  import opened HuffmanTree
  import O = Optimality

  /** The 16-bit field the keys are stored in. */
  function U16(x: nat): nat {
    x % 0x1_0000
  }

  lemma U16Small(x: nat)
    requires x <= 65535
    ensures U16(x) == x
  {
  }

  // ---- first pass

  /** The array holds links for consumed nodes, weights for waiting nodes and waiting leaves. */
  ghost predicate Layout(a: seq<nat>, m: State) {
    && Bounds(m) && |a| == |m.w| && |m.inner| <= |a|
    && (forall i :: 0 <= i < |m.parent| ==> a[i] == m.parent[i])
    && (forall i :: |m.parent| <= i < |m.inner| ==> a[i] == m.inner[i])
    && (forall i :: |m.leafParent| <= i < |a| ==> a[i] == m.w[i])
  }

  lemma LastLight(m: State)
    requires Ready(m)
    ensures m.inner[|m.inner| - 1] <= Sum(m.w, 0, |m.w|)
  {
    hide Growth, Floor, Ordered;
    var n := |m.inner|;
    forall k | 0 <= k < n
      ensures Carries(m.w, m.inner, m.parent, m.leafParent, k, NoExtra(n)[k])
    {
      MadeAt(m, k);
    }
    UptoAll(m.parent, n);
    Telescope(m.w, m.inner, m.parent, m.leafParent, NoExtra(n), n);
    SumZeros(n, n);
    SumStep(m.inner, |m.parent|, n);
  }

  /** Takes the next item in the array; the new node's slot gets or already has a part of its weight. */
  method TakeItem(a: array<nat>, root0: nat, leaf0: nat, next: nat, ghost m: State)
      returns (weight: nat, root: nat, leaf: nat)
    requires Nonempty(m) && Layout(a[..], m)
    requires root0 == |m.parent| && leaf0 == |m.leafParent| && next == |m.inner| < leaf0
    modifies a
    ensures weight == Next(m) && Layout(a[..], Take(m))
    ensures root == |Take(m).parent| && leaf == |Take(m).leafParent|
    ensures forall i :: next <= i < a.Length ==> a[i] == old(a[i])
  {
    root, leaf := root0, leaf0;
    if leaf >= a.Length || (root < next && a[root] < a[leaf]) {
      weight := a[root];
      a[root] := next;
      root := root + 1;
    } else {
      weight := a[leaf];
      leaf := leaf + 1;
    }
  }

  /** One iteration of the merging loop. */
  method MergeTwo(a: array<nat>, root0: nat, leaf0: nat, next: nat, ghost m: State) returns (root: nat, leaf: nat)
    requires Due(m) && Layout(a[..], m) && Sum(m.w, 0, |m.w|) <= 65535
    requires root0 == |m.parent| && leaf0 == |m.leafParent| && next == |m.inner|
    modifies a
    ensures Ready(Step(m)) && Layout(a[..], Step(m))
    ensures root == |Step(m).parent| && leaf == |Step(m).leafParent|
  {
    hide Made, Growth, Floor, Ordered, Links, TakesInner, Next, Take, Sum, U16;
    StepReady(m);
    TakenShape(m);
    LastLight(Step(m));
    var first, second;
    first, root, leaf := TakeItem(a, root0, leaf0, next, m);
    TakeInner(m);
    a[next] := first;
    second, root, leaf := TakeItem(a, root, leaf, next, Take(m));
    TakeInner(Take(m));
    U16Small(first + second);
    a[next] := U16(a[next] + second);
  }

  lemma TakeInner(m: State)
    requires Nonempty(m)
    ensures Take(m).inner == m.inner && Take(m).w == m.w
    ensures |Take(m).leafParent| >= |m.leafParent|
  {
  }

  /** The merging pass: afterwards the array starts with the links of all nodes but the root. */
  method MergeAll(a: array<nat>) returns (ghost m: State)
    requires a.Length >= 2 && Sorted(a[..]) && Positive(a[..]) && Sum(a[..], 0, a.Length) <= 65535
    modifies a
    ensures Finished(m) && m.w == old(a[..]) && |m.parent| == a.Length - 2
    ensures forall i :: 0 <= i < |m.parent| ==> a[i] == m.parent[i]
  {
    hide Made, Growth, Floor, Ordered, Links, TakesInner, Next, Take, Sum;
    ghost var w := a[..];
    StartReady(w);
    m := Start(w);
    LastLight(m);
    U16Small(a[0] + a[1]);
    a[0] := U16(a[0] + a[1]);
    var root, leaf, next := 0, 2, 1;
    while next < a.Length - 1
      invariant 1 <= next <= a.Length - 1
      invariant Ready(m) && Layout(a[..], m) && m.w == w
      invariant root == |m.parent| && leaf == |m.leafParent| && next == |m.inner|
    {
      TwoLeft(m);
      root, leaf := MergeTwo(a, root, leaf, next, m);
      StepFields(m);
      m := Step(m);
      next := next + 1;
    }
    FinishedShape(m);
  }

  lemma StepFields(m: State)
    requires Due(m)
    ensures Step(m).w == m.w && |Step(m).inner| == |m.inner| + 1
  {
    TakenShape(m);
  }

  // ---- second pass

  /** Links become depths, from the root down. */
  method LinksToDepths(a: array<nat>, ghost p: seq<nat>)
    requires a.Length >= 2 && |p| == a.Length - 2 && Forward(p)
    requires forall i :: 0 <= i < |p| ==> a[i] == p[i]
    modifies a
    ensures forall i :: 0 <= i <= |p| ==> a[i] == Depth(p, i)
  {
    a[a.Length - 2] := 0;
    RootDepth(p);
    var next := a.Length - 3;
    while next >= 0
      invariant -1 <= next <= a.Length - 3
      invariant forall i :: 0 <= i <= next ==> a[i] == p[i]
      invariant forall i :: next < i <= |p| ==> a[i] == Depth(p, i)
    {
      ChildDepth(p, next);
      a[next] := a[a[next]] + 1;
      next := next - 1;
    }
  }

  // ---- third pass

  /** The inner nodes from h on are exactly those less deep than d. */
  ghost predicate Cut(p: seq<nat>, h: int, d: nat)
    requires Forward(p)
  {
    0 <= h <= |p| + 1 && forall i :: 0 <= i <= |p| ==> (i >= h <==> Depth(p, i) < d)
  }

  /** The leaves from g on are exactly those less deep than d. */
  ghost predicate LeafCut(m: State, g: int, d: nat)
    requires Forward(m.parent) && LeafLinks(m)
  {
    0 <= g <= |m.leafParent| && forall k :: 0 <= k < |m.leafParent| ==> (k >= g <==> LeafDepths(m)[k] < d)
  }

  /** The next cut is the number of nodes whose parents lie before this one. */
  lemma NextCut(m: State, h: int, h2: int, d: nat)
    requires Finished(m) && Forward(m.parent) && Cut(m.parent, h, d) && Cut(m.parent, h2, d + 1) && h <= |m.inner|
    ensures h2 == Upto(m.parent, h)
  {
    hide Ready, Upto, Sorted;
    FinishedLinks(m);
    var p := m.parent;
    RootDepth(p);
    assert h2 <= |p|;
    var u := Upto(p, h);
    if u < h2 {
      UptoSorted(p, h, u);
      ChildDepth(p, u);
      assert false;
    }
    if h2 < u {
      UptoSorted(p, h, h2);
      ChildDepth(p, h2);
      assert false;
    }
  }

  /** The leaves of depth at most d start at twice the cut minus the next cut. */
  lemma LeafLevel(m: State, h: int, h2: int, d: nat)
    requires Finished(m) && Forward(m.parent) && LeafLinks(m)
    requires Cut(m.parent, h, d) && Cut(m.parent, h2, d + 1) && h <= |m.inner|
    ensures LeafCut(m, 2 * h - h2, d + 1)
  {
    hide Ready, Upto, Sorted;
    FinishedLinks(m);
    NextCut(m, h, h2, d);
    BinaryAt(m, h);
    var g := 2 * h - h2;
    forall k | 0 <= k < |m.leafParent|
      ensures k >= g <==> LeafDepths(m)[k] < d + 1
    {
      UptoSorted(m.leafParent, h, k);
      assert m.leafParent[k] >= h <==> Depth(m.parent, m.leafParent[k]) < d;
    }
  }

  /** Without a node at depth d there is none below. */
  lemma EmptyLevel(p: seq<nat>, h: int, d: nat)
    requires Forward(p) && Cut(p, h, d) && Cut(p, h, d + 1)
    ensures h == 0
  {
    if h > 0 {
      RootDepth(p);
      if h - 1 < |p| {
        ChildDepth(p, h - 1);
      }
      assert false;
    }
  }

  /** Counts the nodes of one depth, walking root down over them. */
  method SkipLevel(a: array<nat>, root0: int, dpth: nat, ghost p: seq<nat>) returns (root: int, used: nat)
    requires Forward(p) && -1 <= root0 <= |p| < a.Length && Cut(p, root0 + 1, dpth) && Sorted(p)
    requires forall i :: 0 <= i <= root0 ==> a[i] == Depth(p, i)
    ensures -1 <= root <= root0 && used == root0 - root && Cut(p, root + 1, dpth + 1)
  {
    root, used := root0, 0;
    while root >= 0 && a[root] == dpth
      invariant -1 <= root <= root0 && used == root0 - root
      invariant forall i :: root < i <= root0 ==> Depth(p, i) == dpth
    {
      used := used + 1;
      root := root - 1;
    }
    forall i | 0 <= i <= |p|
      ensures i >= root + 1 <==> Depth(p, i) < dpth + 1
    {
      if i <= root {
        DepthMonotone(p, i, root);
        assert Depth(p, root) >= dpth;
      }
    }
  }

  /** Writes the length dpth to the leaves of that depth, from next downwards. */
  method FillLevel(a: array<nat>, next0: int, count: nat, dpth: nat, ghost m: State) returns (next: int)
    requires Forward(m.parent) && LeafLinks(m) && |m.leafParent| == a.Length
    requires -1 <= next0 < a.Length && count <= next0 + 1
    requires LeafCut(m, next0 + 1, dpth) && LeafCut(m, next0 + 1 - count, dpth + 1)
    requires forall k :: next0 < k < a.Length ==> a[k] == LeafDepths(m)[k]
    modifies a
    ensures next == next0 - count
    ensures forall k :: next < k < a.Length ==> a[k] == LeafDepths(m)[k]
    ensures forall k :: 0 <= k <= next ==> a[k] == old(a[k])
  {
    next := next0;
    var left := count;
    while left > 0
      invariant 0 <= left <= count && next == next0 - count + left
      invariant forall k :: next < k < a.Length ==> a[k] == LeafDepths(m)[k]
      invariant forall k :: 0 <= k <= next ==> a[k] == old(a[k])
    {
      a[next] := dpth;
      next := next - 1;
      left := left - 1;
    }
  }

  /** Depths of inner nodes become lengths of leaves, level by level. */
  method DepthsToLengths(a: array<nat>, ghost m: State)
    requires Finished(m) && Forward(m.parent) && LeafLinks(m) && a.Length == |m.w| == |m.leafParent|
    requires |m.parent| == a.Length - 2 && Sorted(m.parent)
    requires forall i :: 0 <= i <= |m.parent| ==> a[i] == Depth(m.parent, i)
    modifies a
    ensures a[..] == LeafDepths(m)
  {
    hide Ready, Depth, Sorted, Upto;
    ghost var p := m.parent;
    var avbl: nat, used: nat, dpth: nat := 1, 0, 0;
    var root: int, next: int := a.Length - 2, a.Length - 1;
    while avbl > 0
      invariant -1 <= root <= a.Length - 2 && next == root + avbl < a.Length
      invariant Cut(p, root + 1, dpth) && LeafCut(m, next + 1, dpth)
      invariant avbl == 0 ==> root == -1
      invariant forall i :: 0 <= i <= root ==> a[i] == Depth(p, i)
      invariant forall k :: next < k < a.Length ==> a[k] == LeafDepths(m)[k]
      decreases root + 1, avbl
    {
      ghost var h := root + 1;
      root, used := SkipLevel(a, root, dpth, p);
      LeafLevel(m, h, root + 1, dpth);
      FewerUsed(m, h, root + 1, avbl, next, dpth);
      next := FillLevel(a, next, avbl - used, dpth, m);
      avbl := 2 * used;
      if avbl == 0 {
        EmptyLevel(p, h, dpth);
      }
      dpth := dpth + 1;
      used := 0;
    }
    assert forall k :: 0 <= k < a.Length ==> a[..][k] == LeafDepths(m)[k];
  }

  /** No level has more inner nodes than places. */
  lemma FewerUsed(m: State, h: int, h2: int, avbl: nat, next: int, d: nat)
    requires Forward(m.parent) && LeafLinks(m) && 0 <= h2 <= h && next + 1 == h + avbl
    requires LeafCut(m, next + 1, d) && LeafCut(m, 2 * h - h2, d + 1)
    ensures h - h2 <= avbl
  {
    if next + 1 < |m.leafParent| {
      assert LeafDepths(m)[next + 1] < d;
    }
  }

  /** Lengths of a prefix code without gaps, none above 32 and none growing with the weight, of least
      total weighted length among all lengths that admit a prefix code. */
  ghost predicate MinimumCode(w: seq<nat>, lens: seq<nat>) {
    && |lens| == |w|
    && (forall k :: 0 <= k < |w| ==> 1 <= lens[k] <= 32)
    && (forall i, j :: 0 <= i <= j < |w| ==> lens[i] >= lens[j])
    && O.KraftSum(lens, 32) == Pow2(32)
    && forall d: seq<nat>, unit: nat :: |d| == |w| && O.Allowed(d, unit) ==> O.Cost(w, lens) <= O.Cost(w, d)
  }

  /** The whole computation. m is the merging it performed. */
  method CalculateMinimumRedundancy(a: array<nat>) returns (ghost m: State)
    requires a.Length >= 2 ==> Sorted(a[..]) && Positive(a[..]) && Sum(a[..], 0, a.Length) <= 65535
    modifies a
    ensures a.Length == 1 ==> a[0] == 1
    ensures a.Length >= 2 ==> Finished(m) && m.w == old(a[..]) && Forward(m.parent) && LeafLinks(m)
    ensures a.Length >= 2 ==> a[..] == LeafDepths(m) && MinimumCode(old(a[..]), a[..])
  {
    hide Ready, Depth, Sorted, Upto, Positive, Sum, MinimumCode;
    m := State([], [], [], [], 0);
    if a.Length == 0 {
      return;
    } else if a.Length == 1 {
      a[0] := 1;
      return;
    }
    m := MergeAll(a);
    FinishedLinks(m);
    LinksToDepths(a, m.parent);
    DepthsToLengths(a, m);
    DepthsAreMinimum(m);
  }

  // ---- what the lengths are

  /** The lengths do not grow with the weight, lie in 1..32 and have Kraft sum one. */
  lemma LengthsAreKraftComplete(m: State)
    requires Finished(m) && Forward(m.parent) && LeafLinks(m) && Sum(m.w, 0, |m.w|) <= 65535
    ensures |LeafDepths(m)| == |m.w|
    ensures forall k :: 0 <= k < |m.w| ==> 1 <= LeafDepths(m)[k] <= 32
    ensures forall i, j :: 0 <= i <= j < |m.w| ==> LeafDepths(m)[i] >= LeafDepths(m)[j]
    ensures Within(LeafDepths(m), 32) && Sum(Weights(LeafDepths(m), 32), 0, |m.w|) == Pow2(32)
  {
    hide Ready, Pow2, Upto, Sum;
    FinishedLinks(m);
    forall i | 0 <= i < |m.inner|
      ensures InnerDepths(m)[i] <= 22
    {
      HeightBound(m, i);
    }
    forall k | 0 <= k < |m.w|
      ensures 1 <= LeafDepths(m)[k] <= 23
    {
      assert InnerDepths(m)[m.leafParent[k]] <= 22;
    }
    forall i, j | 0 <= i <= j < |m.w|
      ensures LeafDepths(m)[i] >= LeafDepths(m)[j]
    {
      DepthMonotone(m.parent, m.leafParent[i], m.leafParent[j]);
    }
    KraftOne(m, 32);
  }

  /** The depths of the leaves are such lengths. */
  lemma DepthsAreMinimum(m: State)
    requires Finished(m) && Forward(m.parent) && LeafLinks(m) && Sum(m.w, 0, |m.w|) <= 65535
    ensures MinimumCode(m.w, LeafDepths(m))
  {
    hide Ready, Finished, Depth, Upto, O.Cost, O.Allowed, Pow2;
    LengthsAreKraftComplete(m);
    forall d: seq<nat>, unit: nat | |d| == |m.w| && O.Allowed(d, unit)
      ensures O.Cost(m.w, LeafDepths(m)) <= O.Cost(m.w, d)
    {
      O.MinimumCost(m, unit, d);
    }
  }
}
