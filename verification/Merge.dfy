/** The bookkeeping of Huffman merging with two queues: the leaves in ascending order of weight and
    the inner nodes in the order they are made. The in-place algorithm of Moffat and Katajainen
    keeps this state inside one array. */
module Merge {

  /** w: the leaf weights; inner: the weights of the inner nodes made so far; parent, leafParent: the
      parents of the inner nodes and leaves consumed so far; floor: no remaining item is lighter. */
  datatype State = State(w: seq<nat>, inner: seq<nat>, parent: seq<nat>, leafParent: seq<nat>, floor: nat)

  ghost predicate Sorted(w: seq<nat>) {
    forall i, j :: 0 <= i <= j < |w| ==> w[i] <= w[j]
  }

  ghost predicate Positive(w: seq<nat>) {
    forall i :: 0 <= i < |w| ==> w[i] >= 1
  }

  /** w[lo] + ... + w[hi - 1] */
  function Sum(w: seq<nat>, lo: nat, hi: nat): nat
    requires lo <= hi <= |w|
  {
    if lo == hi then 0 else Sum(w, lo, hi - 1) + w[hi - 1]
  }

  lemma {:induction false} SumSplit(w: seq<nat>, lo: nat, mid: nat, hi: nat)
    requires lo <= mid <= hi <= |w|
    ensures Sum(w, lo, hi) == Sum(w, lo, mid) + Sum(w, mid, hi)
  {
    if mid < hi { SumSplit(w, lo, mid, hi - 1); }
  }

  lemma {:induction false} SumSame(w: seq<nat>, v: seq<nat>, lo: nat, hi: nat)
    requires lo <= hi <= |w| && hi <= |v| && forall i :: lo <= i < hi ==> w[i] == v[i]
    ensures Sum(w, lo, hi) == Sum(v, lo, hi)
  {
    if lo < hi { SumSame(w, v, lo, hi - 1); }
  }

  /** How many elements are smaller than p. */
  function Upto(s: seq<nat>, p: nat): (c: nat)
    ensures c <= |s|
  {
    if s == [] then 0 else Upto(s[..|s| - 1], p) + if s[|s| - 1] < p then 1 else 0
  }

  lemma UptoSnoc(s: seq<nat>, x: nat, p: nat)
    ensures Upto(s + [x], p) == Upto(s, p) + if x < p then 1 else 0
  {
    assert (s + [x])[..|s|] == s;
  }

  /** In a sorted sequence the elements smaller than p come first. */
  lemma {:induction false} UptoSorted(s: seq<nat>, p: nat, i: nat)
    requires Sorted(s) && i < |s|
    ensures s[i] < p <==> i < Upto(s, p)
  {
    var r := s[..|s| - 1];
    if i < |r| {
      UptoSorted(r, p, i);
    }
    if |r| > 0 {
      UptoSorted(r, p, |r| - 1);
    }
  }

  lemma {:induction false} UptoAll(s: seq<nat>, p: nat)
    requires forall i :: 0 <= i < |s| ==> s[i] < p
    ensures Upto(s, p) == |s|
  {
    if s != [] { UptoAll(s[..|s| - 1], p); }
  }

  lemma {:induction false} UptoNone(s: seq<nat>)
    ensures Upto(s, 0) == 0
  {
    if s != [] { UptoNone(s[..|s| - 1]); }
  }

  lemma {:induction false} UptoMonotone(s: seq<nat>, p: nat, q: nat)
    requires p <= q
    ensures Upto(s, p) <= Upto(s, q)
  {
    if s != [] { UptoMonotone(s[..|s| - 1], p, q); }
  }

  /** Parents point forward, in order. */
  ghost predicate Links(p: seq<nat>, leafP: seq<nat>, count: nat) {
    && Sorted(p) && Sorted(leafP)
    && (forall i :: 0 <= i < |p| ==> i < p[i] < count)
    && (forall i :: 0 <= i < |leafP| ==> leafP[i] < count)
  }

  /** Every node below p has exactly two children. */
  ghost predicate Binary(p: seq<nat>, leafP: seq<nat>, j: nat) {
    Upto(p, j) + Upto(leafP, j) == 2 * j
  }

  /** The weight of node j is the weight of its children. */
  ghost predicate Weighs(w: seq<nat>, inner: seq<nat>, p: seq<nat>, leafP: seq<nat>, j: nat)
    requires |p| <= |inner| && |leafP| <= |w| && j < |inner|
  {
    && Upto(p, j) <= Upto(p, j + 1) && Upto(leafP, j) <= Upto(leafP, j + 1)
    && inner[j] == Sum(inner, Upto(p, j), Upto(p, j + 1)) + Sum(w, Upto(leafP, j), Upto(leafP, j + 1))
  }

  /** The children of node j weigh at most t, and what was left when it was made at least t. */
  ghost predicate Threshold(w: seq<nat>, inner: seq<nat>, p: seq<nat>, leafP: seq<nat>, j: nat, t: nat)
    requires |p| <= |inner| && |leafP| <= |w| && j < |inner|
  {
    && (forall i :: 0 <= i < Upto(p, j + 1) ==> inner[i] <= t)
    && (forall i :: 0 <= i < Upto(leafP, j + 1) ==> w[i] <= t)
    && (forall i :: Upto(p, j + 1) <= i <= j ==> inner[i] >= t)
    && (forall i :: Upto(leafP, j + 1) <= i < |w| ==> w[i] >= t)
  }

  /** When node j was made, its children were the two lightest items. */
  ghost predicate Greedy(w: seq<nat>, inner: seq<nat>, p: seq<nat>, leafP: seq<nat>, j: nat)
    requires |p| <= |inner| && |leafP| <= |w| && j < |inner|
  {
    exists t: nat :: Threshold(w, inner, p, leafP, j, t)
  }

  ghost predicate Bounds(m: State) {
    && |m.parent| <= |m.inner| && |m.leafParent| <= |m.w|
  }

  ghost predicate Ordered(m: State) {
    && Sorted(m.w) && Sorted(m.inner) && Positive(m.w) && Positive(m.inner)
  }

  /** Consumed items weigh at most floor, remaining ones at least floor. */
  ghost predicate Floor(m: State)
    requires Bounds(m)
  {
    && (forall i :: 0 <= i < |m.parent| ==> m.inner[i] <= m.floor)
    && (forall i :: 0 <= i < |m.leafParent| ==> m.w[i] <= m.floor)
    && (forall i :: |m.parent| <= i < |m.inner| ==> m.inner[i] >= m.floor)
    && (forall i :: |m.leafParent| <= i < |m.w| ==> m.w[i] >= m.floor)
  }

  /** A node outweighs its child, and its grandchild together with the child between them. */
  ghost predicate Growth(m: State)
    requires Bounds(m) && Links(m.parent, m.leafParent, |m.inner|)
  {
    && (forall i :: 0 <= i < |m.parent| ==> m.inner[m.parent[i]] >= m.inner[i] + 1)
    && (forall i :: 0 <= i < |m.parent| && m.parent[i] < |m.parent| ==>
          m.inner[m.parent[m.parent[i]]] >= m.inner[m.parent[i]] + m.inner[i])
  }

  /** What is known of the nodes made so far. */
  ghost predicate Made(m: State)
    requires Bounds(m)
  {
    && (forall j :: 0 <= j <= |m.inner| ==> Binary(m.parent, m.leafParent, j))
    && (forall j :: 0 <= j < |m.inner| ==>
          Weighs(m.w, m.inner, m.parent, m.leafParent, j) && Greedy(m.w, m.inner, m.parent, m.leafParent, j))
  }

  /** Between two merges. */
  ghost predicate Ready(m: State) {
    && Bounds(m) && Ordered(m) && Floor(m)
    && 1 <= |m.inner| < |m.w| && |m.parent| < |m.inner|
    && |m.parent| + |m.leafParent| == 2 * |m.inner|
    && Links(m.parent, m.leafParent, |m.inner|) && Growth(m) && Made(m)
    && 2 <= m.inner[|m.inner| - 1] <= 2 * m.floor
  }

  /** Which queue the next item comes from: an inner node only if it is strictly lighter. */
  predicate TakesInner(m: State)
    requires |m.parent| <= |m.inner| && |m.leafParent| <= |m.w|
  {
    |m.leafParent| >= |m.w| || (|m.parent| < |m.inner| && m.inner[|m.parent|] < m.w[|m.leafParent|])
  }

  ghost predicate Nonempty(m: State) {
    Bounds(m) && (|m.leafParent| < |m.w| || |m.parent| < |m.inner|)
  }

  /** The weight of the next item. */
  ghost function Next(m: State): nat
    requires Nonempty(m)
  {
    if TakesInner(m) then m.inner[|m.parent|] else m.w[|m.leafParent|]
  }

  /** The state after taking the next item as a child of the node to be made. */
  ghost function Take(m: State): State
    requires Nonempty(m)
  {
    if TakesInner(m) then m.(parent := m.parent + [|m.inner|], floor := Next(m))
    else m.(leafParent := m.leafParent + [|m.inner|], floor := Next(m))
  }

  ghost function Make(m: State, weight: nat): State {
    m.(inner := m.inner + [weight])
  }

  /** One merge: take two items and make their parent. */
  ghost function Step(m: State): State
    requires Nonempty(m) && Nonempty(Take(m))
  {
    Make(Take(Take(m)), Next(m) + Next(Take(m)))
  }

  ghost function Start(w: seq<nat>): State
    requires |w| >= 2
  {
    State(w, [w[0] + w[1]], [], [0, 0], w[1])
  }

  lemma StartReady(w: seq<nat>)
    requires |w| >= 2 && Sorted(w) && Positive(w)
    ensures Ready(Start(w))
  {
    var m := Start(w);
    StartCounts();
    assert Sum(w, 0, 2) == Sum(w, 0, 1) + w[1] && Sum(w, 0, 1) == w[0];
    assert Sum(m.inner, 0, 0) == 0;
    hide Sum, Upto;
    assert Weighs(m.w, m.inner, m.parent, m.leafParent, 0);
    assert Threshold(m.w, m.inner, m.parent, m.leafParent, 0, w[1]);
    assert Made(m) by { hide Threshold, Weighs; }
  }

  lemma StartCounts()
    ensures Upto([], 0) == Upto([], 1) == Upto([0, 0], 0) == 0 && Upto([0, 0], 1) == 2
  {
    var q: seq<nat> := [0, 0];
    assert q == [0] + [0] && [0] == [] + [0];
    UptoSnoc([0], 0, 0); UptoSnoc([0], 0, 1); UptoSnoc([], 0, 0); UptoSnoc([], 0, 1);
  }

  /** Taking an item keeps the order of the queues and lifts the floor to it. */
  lemma TakeKeeps(m: State)
    requires Bounds(m) && Ordered(m) && Floor(m) && Nonempty(m)
    ensures Bounds(Take(m)) && Ordered(Take(m)) && Floor(Take(m))
    ensures m.floor <= Next(m) == Take(m).floor
    ensures |Take(m).parent| + |Take(m).leafParent| == |m.parent| + |m.leafParent| + 1
  {
  }

  /** Two items are left whenever a merge is still due, and the second never is the new node. */
  lemma TwoLeft(m: State)
    requires Ready(m) && |m.inner| < |m.w| - 1
    ensures Nonempty(m) && Nonempty(Take(m))
    ensures |Take(Take(m)).parent| <= |m.inner|
  {
    hide Made, Growth, Links, Floor, Ordered;
  }

  lemma SortedSnoc(s: seq<nat>, x: nat)
    requires Sorted(s) && (s != [] ==> s[|s| - 1] <= x)
    ensures Sorted(s + [x])
  {
  }

  lemma LinksTake(m: State, count: nat)
    requires Nonempty(m) && count == |m.inner| + 1
    requires Links(m.parent, m.leafParent, count)
    ensures Links(Take(m).parent, Take(m).leafParent, count)
  {
    hide Floor, Ordered;
    assert forall i :: 0 <= i < |m.parent| ==> m.parent[i] <= |m.inner|;
    assert forall i :: 0 <= i < |m.leafParent| ==> m.leafParent[i] <= |m.inner|;
    SortedSnoc(m.parent, |m.inner|);
    SortedSnoc(m.leafParent, |m.inner|);
  }

  // ---- one merge keeps Ready

  /** The state after both items are taken. */
  ghost function Taken(m: State): State
    requires Nonempty(m) && Nonempty(Take(m))
  {
    Take(Take(m))
  }

  ghost predicate Due(m: State) {
    Ready(m) && |m.inner| < |m.w| - 1 && Nonempty(m) && Nonempty(Take(m))
  }

  /** What taking two items leaves unchanged and what it appends. */
  lemma TakenShape(m: State)
    requires Due(m)
    ensures var t := Taken(m); var j := |m.inner|;
            && t.w == m.w && t.inner == m.inner && Bounds(t)
            && |m.parent| <= |t.parent| <= |m.parent| + 2 && |m.leafParent| <= |t.leafParent| <= |m.leafParent| + 2
            && |t.parent| + |t.leafParent| == 2 * j + 2
            && t.parent[..|m.parent|] == m.parent && t.leafParent[..|m.leafParent|] == m.leafParent
            && (forall i :: |m.parent| <= i < |t.parent| ==> t.parent[i] == j)
            && (forall i :: |m.leafParent| <= i < |t.leafParent| ==> t.leafParent[i] == j)
            && |t.parent| <= j
  {
    TwoLeft(m);
    hide Made, Growth, Links, Floor, Ordered;
  }

  lemma TakenOrder(m: State)
    requires Due(m)
    ensures var t := Taken(m); Bounds(t) && Ordered(t) && Floor(t)
    ensures m.floor <= Next(m) <= Next(Take(m)) == Taken(m).floor
  {
    hide Made, Growth, Links;
    TakeKeeps(m);
    TakeKeeps(Take(m));
  }

  /** The two items taken weigh the new node, and are the new children. */
  lemma TakenWeight(m: State)
    requires Due(m)
    ensures var t := Taken(m); var s := Next(m) + Next(Take(m));
            && |m.parent| <= |t.parent| <= |m.inner| && |m.leafParent| <= |t.leafParent| <= |m.w|
            && s == Sum(m.inner, |m.parent|, |t.parent|) + Sum(m.w, |m.leafParent|, |t.leafParent|)
            && (forall i :: |m.parent| <= i < |t.parent| ==> s >= m.inner[i] + m.floor && s >= m.inner[i] + 1)
  {
    TakenShape(m);
    TakenOrder(m);
    NextPositive(m);
    hide Made, Growth, Links, Floor, Ordered;
    var p, l := |m.parent|, |m.leafParent|;
    assert Sum(m.inner, p, p) == 0 && Sum(m.w, l, l) == 0;
  }

  lemma NextPositive(m: State)
    requires Due(m)
    ensures Next(m) >= 1 && Next(Take(m)) >= 1
  {
    hide Made, Growth, Links, Floor;
  }

  lemma {:induction false} UptoBelow(s: seq<nat>, t: seq<nat>, p: nat)
    requires |s| <= |t| && t[..|s|] == s && forall i :: |s| <= i < |t| ==> t[i] >= p
    ensures Upto(t, p) == Upto(s, p)
    decreases |t|
  {
    if |s| < |t| {
      var r := t[..|t| - 1];
      assert r[..|s|] == s;
      UptoBelow(s, r, p);
    } else {
      assert s == t;
    }
  }

  /** The counts below the new node stay, and the new node closes them. */
  lemma TakenCounts(m: State, j: nat)
    requires Due(m) && j <= |m.inner| + 1
    ensures var t := Taken(m);
            && (j <= |m.inner| ==>
              Upto(t.parent, j) == Upto(m.parent, j) && Upto(t.leafParent, j) == Upto(m.leafParent, j))
            && (j == |m.inner| ==> Upto(t.parent, j) == |m.parent| && Upto(t.leafParent, j) == |m.leafParent|)
            && (j == |m.inner| + 1 ==> Upto(t.parent, j) == |t.parent| && Upto(t.leafParent, j) == |t.leafParent|)
  {
    TakenShape(m);
    var t := Taken(m);
    TakenLinks(m);
    hide Made, Growth, Floor, Ordered, Taken;
    if j <= |m.inner| {
      UptoBelow(m.parent, t.parent, j);
      UptoBelow(m.leafParent, t.leafParent, j);
    }
    if j == |m.inner| {
      UptoAll(m.parent, j);
      UptoAll(m.leafParent, j);
    }
    if j == |m.inner| + 1 {
      UptoAll(t.parent, j);
      UptoAll(t.leafParent, j);
    }
  }

  lemma TakenLinks(m: State)
    requires Due(m)
    ensures Links(Taken(m).parent, Taken(m).leafParent, |m.inner| + 1)
  {
    hide Made, Growth, Floor, Ordered;
    assert Links(m.parent, m.leafParent, |m.inner| + 1);
    LinksTake(m, |m.inner| + 1);
    LinksTake(Take(m), |m.inner| + 1);
  }

  /** The facts about an old node survive a longer list of nodes. */
  lemma OldNodeKept(w: seq<nat>, inner: seq<nat>, x: nat, p: seq<nat>, l: seq<nat>, p2: seq<nat>, l2: seq<nat>, j: nat)
    requires |p| <= |inner| && |l| <= |w| && |p2| <= |inner| && |l2| <= |w| && j < |inner|
    requires Upto(p2, j) == Upto(p, j) && Upto(p2, j + 1) == Upto(p, j + 1)
    requires Upto(l2, j) == Upto(l, j) && Upto(l2, j + 1) == Upto(l, j + 1)
    requires Weighs(w, inner, p, l, j) && Greedy(w, inner, p, l, j)
    ensures Weighs(w, inner + [x], p2, l2, j) && Greedy(w, inner + [x], p2, l2, j)
  {
    hide Upto, Sum;
    SumSame(inner, inner + [x], Upto(p, j), Upto(p, j + 1));
    var t: nat :| Threshold(w, inner, p, l, j, t);
    assert Threshold(w, inner + [x], p2, l2, j, t);
  }

  lemma MadeAt(m: State, j: nat)
    requires Bounds(m) && Made(m) && j < |m.inner|
    ensures Weighs(m.w, m.inner, m.parent, m.leafParent, j) && Greedy(m.w, m.inner, m.parent, m.leafParent, j)
  {
  }

  lemma StepMadeOld(m: State, j: nat)
    requires Due(m) && j < |m.inner|
    ensures var n := Step(m); Bounds(n) && Weighs(n.w, n.inner, n.parent, n.leafParent, j)
                              && Greedy(n.w, n.inner, n.parent, n.leafParent, j)
  {
    hide Made, Growth, Floor, Ordered, Links, Take, Upto, Next, Weighs, Greedy, TakesInner;
    var t := Taken(m);
    TakenShape(m);
    TakenCounts(m, j);
    TakenCounts(m, j + 1);
    MadeAt(m, j);
    OldNodeKept(m.w, m.inner, Next(m) + Next(Take(m)), m.parent, m.leafParent, t.parent, t.leafParent, j);
  }

  /** The facts about the new node itself. */
  lemma NewNodeMade(w: seq<nat>, inner: seq<nat>, x: nat, p: seq<nat>, l: seq<nat>, t: nat)
    requires |p| <= |inner| && |l| <= |w| && x >= t
    requires Upto(p, |inner| + 1) == |p| && Upto(l, |inner| + 1) == |l|
    requires Upto(p, |inner|) <= |p| && Upto(l, |inner|) <= |l|
    requires x == Sum(inner, Upto(p, |inner|), |p|) + Sum(w, Upto(l, |inner|), |l|)
    requires forall i :: 0 <= i < |p| ==> inner[i] <= t
    requires forall i :: 0 <= i < |l| ==> w[i] <= t
    requires forall i :: |p| <= i < |inner| ==> inner[i] >= t
    requires forall i :: |l| <= i < |w| ==> w[i] >= t
    ensures Weighs(w, inner + [x], p, l, |inner|) && Greedy(w, inner + [x], p, l, |inner|)
  {
    hide Upto, Sum;
    UptoMonotone(p, |inner|, |inner| + 1);
    UptoMonotone(l, |inner|, |inner| + 1);
    SumSame(inner, inner + [x], Upto(p, |inner|), |p|);
    assert Weighs(w, inner + [x], p, l, |inner|);
    assert Threshold(w, inner + [x], p, l, |inner|, t);
  }

  lemma StepMadeNew(m: State)
    requires Due(m)
    ensures var n := Step(m); var j := |m.inner|;
            Bounds(n) && Weighs(n.w, n.inner, n.parent, n.leafParent, j)
                && Greedy(n.w, n.inner, n.parent, n.leafParent, j)
  {
    hide Made, Growth, Links, Take, Upto, Next, Ordered, Sum, Weighs, Greedy, TakesInner;
    var t, j := Taken(m), |m.inner|;
    TakenShape(m);
    TakenOrder(m);
    TakenWeight(m);
    TakenCounts(m, j);
    TakenCounts(m, j + 1);
    NewNodeMade(t.w, t.inner, Next(m) + Next(Take(m)), t.parent, t.leafParent, t.floor);
  }

  lemma StepMade(m: State)
    requires Due(m)
    ensures Bounds(Step(m)) && Made(Step(m))
  {
    hide Made, Growth, Floor, Ordered, Links, Take, Weighs, Greedy, Binary, TakesInner, Next;
    var n := Step(m);
    TakenShape(m);
    forall j | 0 <= j <= |n.inner|
      ensures Binary(n.parent, n.leafParent, j)
    {
      StepBinary(m, j);
    }
    forall j | 0 <= j < |n.inner|
      ensures Weighs(n.w, n.inner, n.parent, n.leafParent, j) && Greedy(n.w, n.inner, n.parent, n.leafParent, j)
    {
      if j < |m.inner| { StepMadeOld(m, j); } else { StepMadeNew(m); }
    }
    MadeFrom(n);
  }

  lemma StepBinary(m: State, j: nat)
    requires Due(m) && j <= |m.inner| + 1
    ensures Binary(Step(m).parent, Step(m).leafParent, j)
  {
    hide Growth, Floor, Ordered, Links, Take, Weighs, Greedy, TakesInner, Next, Upto;
    TakenShape(m);
    TakenCounts(m, j);
    if j <= |m.inner| { assert Binary(m.parent, m.leafParent, j); }
  }

  lemma MadeFrom(m: State)
    requires Bounds(m)
    requires forall j :: 0 <= j <= |m.inner| ==> Binary(m.parent, m.leafParent, j)
    requires forall j :: 0 <= j < |m.inner| ==>
               Weighs(m.w, m.inner, m.parent, m.leafParent, j) && Greedy(m.w, m.inner, m.parent, m.leafParent, j)
    ensures Made(m)
  {
  }

  lemma StepGrowth(m: State)
    requires Due(m)
    ensures var n := Step(m); Bounds(n) && Links(n.parent, n.leafParent, |n.inner|) && Growth(n)
  {
    hide Made, Ordered, Sum, Take, Next, TakesInner, Sorted;
    var n, j := Step(m), |m.inner|;
    TakenShape(m);
    TakenLinks(m);
    TakenWeight(m);
    forall i | 0 <= i < |n.parent| && n.parent[i] < |n.parent|
      ensures n.inner[n.parent[n.parent[i]]] >= n.inner[n.parent[i]] + n.inner[i]
    {
      assert n.parent[i] < j && i < |m.parent|;
      assert m.parent[i] == n.parent[i];
    }
    forall i | 0 <= i < |n.parent|
      ensures n.inner[n.parent[i]] >= n.inner[i] + 1
    {
      if i < |m.parent| { assert m.parent[i] == n.parent[i]; }
    }
  }

  lemma StepReady(m: State)
    requires Due(m)
    ensures Ready(Step(m))
  {
    hide Made, Growth, Links, Take, Next, TakesInner;
    TakenShape(m);
    TakenOrder(m);
    StepMade(m);
    StepGrowth(m);
    NextPositive(m);
    SortedSnoc(m.inner, Next(m) + Next(Take(m)));
  }
}
