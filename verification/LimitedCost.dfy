/** What limiting the lengths costs: with at most 2^(max - a) items, the limited code spends at most
    (max - 1 - a) / Fib(a + 1) bits more per item than the best code without a limit. */
module LimitedCost {
  import opened Bits
  import opened Merge
  import opened HuffmanTree
  import opened LengthLimit
  import opened LightCodes
  import O = Optimality

  /** The lengths s fall along the list and c says how many there are of each, up to hi. */
  ghost predicate Leveled(s: seq<nat>, c: Counts, hi: nat) {
    && hi <= MAX_SUPPORTED && |c| == MAX_SUPPORTED + 1 && Total(c, 1, hi) == |s|
    && forall p, t :: 0 <= p < |s| && 0 <= t <= hi ==> (s[p] <= t <==> p + Total(c, 1, t) >= |s|)
  }

  lemma LeveledRange(s: seq<nat>, c: Counts, hi: nat, p: nat)
    requires Leveled(s, c, hi) && p < |s|
    ensures 1 <= s[p] <= hi
  {
    assert Total(c, 1, 0) == 0;
  }

  lemma LeveledAt(s: seq<nat>, c: Counts, hi: nat, p: nat, t: nat)
    requires Leveled(s, c, hi) && p < |s| && t <= hi
    ensures s[p] <= t <==> p + Total(c, 1, t) >= |s|
  {
  }

  lemma LeveledSum(s: seq<nat>, c: Counts, hi: nat)
    requires Leveled(s, c, hi)
    ensures Total(c, 1, hi) == |s| && |c| == MAX_SUPPORTED + 1 && hi <= MAX_SUPPORTED
  {
  }

  lemma {:induction false} TotalRises(c: Counts, m: nat, n: nat)
    requires m <= n < |c|
    ensures Total(c, 1, m) <= Total(c, 1, n)
    decreases n
  {
    if m < n { TotalRises(c, m, n - 1); }
  }

  /** The longer lengths: the last Total(c, 1, t) items have up to t bits, and they fill Kraft(c, t). */
  lemma {:induction false} TailShare(s: seq<nat>, c: Counts, hi: nat, t: nat)
    requires Leveled(s, c, hi) && t <= hi && Within(s, UNIT)
    ensures Total(c, 1, t) <= |s|
    ensures Sum(Weights(s, UNIT), |s| - Total(c, 1, t), |s|) == Kraft(c, UNIT, t)
  {
    hide Pow2, Leveled, Mul, Sum;
    LeveledSum(s, c, hi);
    TotalRises(c, t, hi);
    if t == 0 {
      SumEmpty(Weights(s, UNIT), |s|);
    } else {
      TailShare(s, c, hi, t - 1);
      TotalLast(c, t);
      var lo: nat, mid: nat := |s| - Total(c, 1, t), |s| - Total(c, 1, t - 1);
      LevelShare(s, c, hi, t);
      SumSplit(Weights(s, UNIT), lo, mid, |s|);
    }
  }

  lemma LevelShare(s: seq<nat>, c: Counts, hi: nat, t: nat)
    requires Leveled(s, c, hi) && 1 <= t <= hi < |c| && Within(s, UNIT)
    requires Total(c, 1, t - 1) <= Total(c, 1, t) <= |s| && Total(c, 1, t) == Total(c, 1, t - 1) + c[t]
    ensures Sum(Weights(s, UNIT), |s| - Total(c, 1, t), |s| - Total(c, 1, t - 1)) == Mul(c[t], Pow2(UNIT - t))
  {
    hide Pow2, Leveled, Mul, Sum, Total;
    LeveledSum(s, c, hi);
    var lo: nat, mid: nat := |s| - Total(c, 1, t), |s| - Total(c, 1, t - 1);
    forall p: nat | lo <= p < mid
      ensures Weights(s, UNIT)[p] == Pow2(UNIT - t)
    {
      LeveledAt(s, c, hi, p, t);
      LeveledAt(s, c, hi, p, t - 1);
    }
    EqualSum(Weights(s, UNIT), lo, mid, Pow2(UNIT - t));
  }

  lemma {:induction false} EqualSum(x: seq<nat>, lo: nat, hi: nat, v: nat)
    requires lo <= hi <= |x| && forall i :: lo <= i < hi ==> x[i] == v
    ensures Sum(x, lo, hi) == Mul(hi - lo, v)
    decreases hi
  {
    if lo < hi { EqualSum(x, lo, hi - 1, v); }
  }

  // ---- folding only

  lemma TotalFolded(c0: Counts, c: Counts, max: nat, t: nat)
    requires |c0| == |c| && t < max < |c0| && c == c0[max := c[max]]
    ensures Total(c, 1, t) == Total(c0, 1, t)
  {
    TotalOther(c, c0, t);
  }

  /** Where nothing is split no length grows. */
  lemma FoldedShorter(l: seq<nat>, c0: Counts, d: seq<nat>, c: Counts, max: nat, p: nat)
    requires Leveled(l, c0, MAX_SUPPORTED) && Leveled(d, c, max) && |l| == |d| && p < |l|
    requires max < MAX_SUPPORTED && c == c0[max := c[max]]
    ensures d[p] <= l[p]
  {
    hide Leveled, Total;
    LeveledSum(l, c0, MAX_SUPPORTED);
    LeveledRange(d, c, max, p);
    if l[p] < max {
      LeveledAt(l, c0, MAX_SUPPORTED, p, l[p]);
      LeveledAt(d, c, max, p, l[p]);
      TotalFolded(c0, c, max, l[p]);
    }
  }

  // ---- splitting from length i on

  /** Items with codes up to i bits keep their lengths, the others had at least i bits. */
  lemma TouchedLengths(l: seq<nat>, c0: Counts, d: seq<nat>, c: Counts, max: nat, i: nat, p: nat)
    requires Leveled(l, c0, MAX_SUPPORTED) && Leveled(d, c, max) && |l| == |d| && p < |l|
    requires Touched(c0, c, max, i, |l|)
    ensures p + Total(c, 1, i) >= |l| ==> d[p] == l[p]
    ensures p + Total(c, 1, i) < |l| ==> l[p] >= i
    ensures p + Total(c, 1, i) + 1 >= |l| ==> l[p] <= i
  {
    hide Leveled, Pow2, Kraft, Total;
    LeveledSum(l, c0, MAX_SUPPORTED);
    LeveledSum(d, c, max);
    TouchedTotals(c0, c, max, i, |l|);
    LeveledAt(l, c0, MAX_SUPPORTED, p, i);
    LeveledAt(l, c0, MAX_SUPPORTED, p, i - 1);
    LeveledAt(d, c, max, p, i);
    if p + Total(c, 1, i) >= |l| {
      if l[p] < i {
        KeptTotal(c0, c, l[p]);
        LeveledAt(l, c0, MAX_SUPPORTED, p, l[p]);
        LeveledAt(d, c, max, p, l[p]);
      }
      if d[p] < i {
        KeptTotal(c0, c, d[p]);
        LeveledAt(l, c0, MAX_SUPPORTED, p, d[p]);
        LeveledAt(d, c, max, p, d[p]);
      }
    }
  }

  lemma TouchedTotals(c0: Counts, c: Counts, max: nat, i: nat, codes: nat)
    requires Touched(c0, c, max, i, codes)
    ensures |c| <= |c0| && 1 <= i < max < |c|
    ensures Total(c0, 1, i - 1) == Total(c, 1, i - 1) <= Total(c, 1, i) < Total(c0, 1, i)
  {
    hide Pow2, Kraft;
    KeptTotal(c0, c, i - 1);
  }

  lemma {:induction false} KeptTotal(c0: Counts, c: Counts, t: nat)
    requires t < |c| <= |c0| && forall k :: 1 <= k <= t ==> c[k] == c0[k]
    ensures Total(c0, 1, t) == Total(c, 1, t)
  {
    if t > 0 { KeptTotal(c0, c, t - 1); }
  }

  /** The part of the code space that lengths above i take up, in units of 2^-i. */
  ghost function Rest(c: Counts, i: nat): nat
    requires i < |c| && Kraft(c, i, i) <= Pow2(i)
  {
    Pow2(i) - Kraft(c, i, i)
  }

  lemma RestScaled(c: Counts, i: nat, fine: nat)
    requires i <= fine && i < |c| && Kraft(c, i, i) <= Pow2(i)
    ensures Kraft(c, fine, i) + Mul(Rest(c, i), Pow2(fine - i)) == Pow2(fine)
  {
    hide Pow2, Kraft, Mul;
    KraftScale(c, i, fine, i);
    MulPow2(i, fine - i);
    MulAdd(Kraft(c, i, i), Rest(c, i), Pow2(fine - i));
  }

  lemma KraftFits(c: Counts, i: nat, fine: nat)
    requires i <= fine && i < |c| && Kraft(c, fine, i) <= Pow2(fine)
    ensures Kraft(c, i, i) <= Pow2(i)
  {
    hide Pow2, Kraft, Mul;
    KraftScale(c, i, fine, i);
    MulPow2(i, fine - i);
    CancelMul(Kraft(c, i, i), Pow2(i), Pow2(fine - i));
  }

  /** The items before the last Total(c, 1, i) fill what those leave of the code space. */
  lemma SplitShare(w: seq<nat>, l: seq<nat>, c0: Counts, d: seq<nat>, c: Counts, max: nat, i: nat)
    requires Minimum(w, l) && Within(l, UNIT) && Leveled(l, c0, MAX_SUPPORTED) && Leveled(d, c, max) && |l| == |d|
    requires Touched(c0, c, max, i, |l|)
    ensures i < max < |c| && Total(c, 1, i) < |l|
    ensures Share(l, |l| - Total(c, 1, i)) + Kraft(c, UNIT, i) == Pow2(UNIT)
  {
    hide Pow2, Kraft, Total, Sum, Leveled, Minimum, Touched;
    TouchedTotals(c0, c, max, i, |l|);
    LeveledSum(l, c0, MAX_SUPPORTED);
    LeveledSum(d, c, max);
    TotalRises(c0, i, MAX_SUPPORTED);
    MinimumIs(w, l);
    forall p | 0 <= p < |d|
      ensures d[p] <= UNIT
    {
      LeveledRange(d, c, max, p);
    }
    TailShare(d, c, max, i);
    var g: nat := |l| - Total(c, 1, i);
    forall p | g <= p < |l|
      ensures Weights(l, UNIT)[p] == Weights(d, UNIT)[p]
    {
      TouchedLengths(l, c0, d, c, max, i, p);
    }
    SumSame(Weights(l, UNIT), Weights(d, UNIT), g, |l|);
    SumSplit(Weights(l, UNIT), 0, g, |l|);
    ShareIs(l, g);
    ShareIs(l, |l|);
  }

  /** More than one item of length i or more is split. */
  lemma SplitMany(l: seq<nat>, c0: Counts, d: seq<nat>, c: Counts, max: nat, i: nat)
    requires Within(l, UNIT) && Leveled(l, c0, MAX_SUPPORTED) && Leveled(d, c, max) && |l| == |d|
    requires Touched(c0, c, max, i, |l|) && |l| > 0 && l[0] > max && |c| > i && Total(c, 1, i) < |l|
    ensures i <= UNIT && Share(l, |l| - Total(c, 1, i)) > Pow2(UNIT - i)
  {
    hide Pow2, Kraft, Total, Leveled, Touched, Share;
    TouchedTotals(c0, c, max, i, |l|);
    LeveledSum(d, c, max);
    var g: nat := |l| - Total(c, 1, i);
    TouchedLengths(l, c0, d, c, max, i, g - 1);
    ShareStep(l, g - 1);
    ShareGrows(l, 0, g - 1);
  }

  /** With few items the lengths touched are not short, and the split items fill a small share. */
  lemma SplitFew(c0: Counts, c: Counts, max: nat, i: nat, a: nat, codes: nat, m: nat)
    requires Touched(c0, c, max, i, codes) && a <= max && codes <= Pow2(max - a)
    requires Kraft(c, i, i) <= Pow2(i) && m == Rest(c, i) >= 2
    ensures a < i && m <= Pow2(i - a)
  {
    hide Pow2, Kraft, Mul, Total, Rest;
    RestScaled(c, i, max);
    var unit := Pow2(max - i);
    MulAdd(m - 1, 1, unit);
    MulIsProduct(1, unit);
    if i <= a {
      Pow2Monotone(max - a, max - i);
      MulNotOne(m - 1, unit);
      assert false;
    } else {
      MulPow2(i - a, max - i);
      MulBelow(m - 1, Pow2(i - a), unit);
    }
  }

  lemma SmallShare(w: seq<nat>, l: seq<nat>, c0: Counts, d: seq<nat>, c: Counts, max: nat, i: nat, a: nat)
    requires Minimum(w, l) && Within(l, UNIT) && Leveled(l, c0, MAX_SUPPORTED) && Leveled(d, c, max) && |l| == |d|
    requires Touched(c0, c, max, i, |l|) && |l| > 0 && l[0] > max
    requires a <= max && |l| <= Pow2(max - a)
    ensures a < i < max < |c| && Total(c, 1, i) < |l|
    ensures a <= UNIT && Share(l, |l| - Total(c, 1, i)) <= Pow2(UNIT - a)
  {
    hide Pow2, Kraft, Mul, Total, Rest, Share, Leveled, Touched, Minimum;
    SplitShare(w, l, c0, d, c, max, i);
    LeveledSum(d, c, max);
    SplitMany(l, c0, d, c, max, i);
    KraftFits(c, i, UNIT);
    RestScaled(c, i, UNIT);
    var m := Rest(c, i);
    if m < 2 {
      MulMonotone(m, 1, Pow2(UNIT - i));
      MulIsProduct(1, Pow2(UNIT - i));
      assert false;
    }
    SplitFew(c0, c, max, i, a, |l|, m);
    MulMonotone(m, Pow2(i - a), Pow2(UNIT - i));
    MulPow2(i - a, UNIT - i);
  }

  // ---- the cost

  lemma {:induction false} SumAtMost(c: seq<nat>, d: seq<nat>, lo: nat, hi: nat)
    requires lo <= hi <= |c| && |c| == |d| && forall i :: lo <= i < hi ==> c[i] <= d[i]
    ensures Sum(c, lo, hi) <= Sum(d, lo, hi)
    decreases hi
  {
    if lo < hi { SumAtMost(c, d, lo, hi - 1); }
  }

  /** Lengths that grow by at most k for the first g items cost at most k times their weight more. */
  lemma CostGrows(w: seq<nat>, l: seq<nat>, d: seq<nat>, g: nat, k: nat)
    requires |w| == |l| == |d| && g <= |w|
    requires forall p :: 0 <= p < |w| ==> d[p] <= l[p] + if p < g then k else 0
    ensures O.Cost(w, d) <= O.Cost(w, l) + Mul(k, Sum(w, 0, g))
  {
    hide Mul, Sum;
    var x: seq<nat>, y: seq<nat> := O.Costs(w, d), O.Costs(w, l);
    var e: seq<nat> := seq(|w|, p requires 0 <= p < |w| => if p < g then y[p] + Mul(k, w[p]) else y[p]);
    var z: seq<nat> := seq(|w|, p requires 0 <= p < |w| => Mul(k, w[p]));
    forall p | 0 <= p < |w|
      ensures x[p] <= e[p]
    {
      MulMonotone(d[p], l[p] + if p < g then k else 0, w[p]);
      MulAdd(l[p], k, w[p]);
    }
    SumAtMost(x, e, 0, |w|);
    SumPlus(e, y, z, 0, g);
    SumSame(e, y, g, |w|);
    O.SumScaled(z, w, k, 0, g);
    SumSplit(e, 0, g, |w|);
    SumSplit(y, 0, g, |w|);
  }

  /** The limited code d of weights w against the minimum code l it was made from. */
  lemma LimitedMinimum(w: seq<nat>, l: seq<nat>, c0: Counts, d: seq<nat>, c: Counts, max: nat, a: nat)
    requires Minimum(w, l) && Leveled(l, c0, MAX_SUPPORTED) && Leveled(d, c, max) && |d| == |w|
    requires Limited(c0, c, max, |w|) && 1 <= a < max && |w| <= Pow2(max - a)
    ensures |l| == |w|
    ensures Fibonacci(a + 1) * O.Cost(w, d) <= Fibonacci(a + 1) * O.Cost(w, l) + (max - 1 - a) * O.Total(w)
  {
    hide Pow2, Kraft, Total, Leveled, Touched, Minimum, Sum, O.Cost, Fibonacci, Mul;
    MinimumIs(w, l);
    MinimumNonEmpty(w, l);
    if c == c0[max := Total(c0, max, MAX_SUPPORTED)] {
      forall p | 0 <= p < |w|
        ensures d[p] <= l[p]
      {
        FoldedShorter(l, c0, d, c, max, p);
      }
      CostGrows(w, l, d, 0, 0);
      MulIsProduct(0, Sum(w, 0, 0));
      LimitedArithmetic(Fibonacci(a + 1), O.Cost(w, d), O.Cost(w, l), 0, 0, max - 1 - a, O.Total(w));
    } else {
      var i: nat :| Touched(c0, c, max, i, |w|);
      LongestFirst(l, c0, max);
      SmallShare(w, l, c0, d, c, max, i, a);
      var g: nat := |l| - Total(c, 1, i);
      forall p | 0 <= p < |w|
        ensures d[p] <= l[p] + if p < g then max - i else 0
      {
        TouchedLengths(l, c0, d, c, max, i, p);
        LeveledRange(d, c, max, p);
      }
      CostGrows(w, l, d, g, max - i);
      LightPart(w, l, a, g);
      MulIsProduct(max - i, Sum(w, 0, g));
      LimitedArithmetic(Fibonacci(a + 1), O.Cost(w, d), O.Cost(w, l), max - i, Sum(w, 0, g), max - 1 - a, O.Total(w));
    }
  }

  lemma LongestFirst(l: seq<nat>, c0: Counts, max: nat)
    requires Leveled(l, c0, MAX_SUPPORTED) && |l| > 0 && max < MAX_SUPPORTED
    requires Total(c0, max + 1, MAX_SUPPORTED) > 0
    ensures l[0] > max
  {
    hide Total;
    TotalSplit(c0, max + 1, MAX_SUPPORTED);
  }

  lemma LimitedArithmetic(f: nat, d: nat, l: nat, k: nat, g: nat, m: nat, t: nat)
    requires d <= l + k * g && k <= m && f * g <= t
    ensures f * d <= f * l + m * t
  {
    assert f * d <= f * (l + k * g);
    assert f * (l + k * g) == f * l + k * (f * g);
    assert k * (f * g) <= k * t <= m * t;
  }

  /** Against any lengths that admit a prefix code. */
  lemma LimitedBound(w: seq<nat>, l: seq<nat>, c0: Counts, d: seq<nat>, c: Counts, max: nat, a: nat, e: seq<nat>,
                     unit: nat)
    requires Minimum(w, l) && Leveled(l, c0, MAX_SUPPORTED) && Leveled(d, c, max) && |d| == |w| == |e|
    requires Limited(c0, c, max, |w|) && 1 <= a < max && |w| <= Pow2(max - a) && O.Allowed(e, unit)
    ensures Fibonacci(a + 1) * O.Cost(w, d) <= Fibonacci(a + 1) * O.Cost(w, e) + (max - 1 - a) * O.Total(w)
  {
    hide Pow2, Kraft, Total, Leveled, Limited, Sum, O.Cost, O.Allowed, Fibonacci, Mul, Minimum;
    LimitedMinimum(w, l, c0, d, c, max, a);
    MinimumLeast(w, l, e, unit);
    LimitedArithmetic(Fibonacci(a + 1), O.Cost(w, l), O.Cost(w, e), 0, 0, 0, 0);
  }

  lemma MinimumLeast(w: seq<nat>, l: seq<nat>, e: seq<nat>, unit: nat)
    requires Minimum(w, l) && |e| == |w| && O.Allowed(e, unit)
    ensures |l| == |w| && O.Cost(w, l) <= O.Cost(w, e)
  {
    hide Pow2, O.Cost, O.Allowed, O.KraftSum;
  }

  /** Items too light for a code longer than max keep the least cost. */
  lemma LightUnlimited(w: seq<nat>, l: seq<nat>, c0: Counts, d: seq<nat>, c: Counts, max: nat)
    requires Minimum(w, l) && Leveled(l, c0, MAX_SUPPORTED) && Leveled(d, c, max) && |d| == |w|
    requires Limited(c0, c, max, |w|) && 1 <= max && Positive(w) && O.Total(w) < Fibonacci(max + 2)
    ensures |l| == |w| && O.Cost(w, d) <= O.Cost(w, l)
  {
    hide Pow2, Kraft, Total, Leveled, Touched, Minimum, Sum, O.Cost, Fibonacci, Mul, Positive;
    MinimumIs(w, l);
    MinimumNonEmpty(w, l);
    if l[0] > max {
      LongHeavy(w, l, max + 1);
    } else {
      if Total(c0, max + 1, MAX_SUPPORTED) > 0 { LongestFirst(l, c0, max); }
      forall p | 0 <= p < |w|
        ensures d[p] <= l[p]
      {
        FoldedShorter(l, c0, d, c, max, p);
      }
      CostGrows(w, l, d, 0, 0);
      MulIsProduct(0, Sum(w, 0, 0));
    }
  }
}
