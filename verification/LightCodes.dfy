/** How little the longest codes of a minimum code weigh: the items whose codes take up a share 2^-a of
    the code space weigh at most one part in Fib(a + 1) of all. */
module LightCodes {
  import opened Bits
  import opened Merge
  import opened HuffmanTree
  import opened Optimality
  import MinRedundancy

  function Fibonacci(n: nat): nat {
    if n < 2 then n else Fibonacci(n - 1) + Fibonacci(n - 2)
  }

  const UNIT: nat := 32

  /** The share of the code space, in units of 2^-32, of the first p items. */
  ghost function Share(l: seq<nat>, p: nat): nat
    requires Within(l, UNIT) && p <= |l|
  {
    Sum(Weights(l, UNIT), 0, p)
  }

  /** A minimum code of items in ascending order. */
  ghost predicate Minimum(w: seq<nat>, l: seq<nat>) {
    |w| > 0 && MinRedundancy.MinimumCode(w, l)
  }

  lemma MinimumIs(w: seq<nat>, l: seq<nat>)
    requires Minimum(w, l)
    ensures |l| == |w| && Within(l, UNIT) && Share(l, |l|) == Pow2(UNIT)
    ensures forall k :: 0 <= k < |l| ==> 1 <= l[k] <= 32
    ensures forall i, j :: 0 <= i <= j < |l| ==> l[i] >= l[j]
  {
    hide Pow2, Sum, Weights, Cost, Allowed;
  }

  lemma ShareStep(l: seq<nat>, p: nat)
    requires Within(l, UNIT) && p < |l|
    ensures Share(l, p + 1) == Share(l, p) + Pow2(UNIT - l[p])
    ensures Share(l, 0) == 0
  {
    hide Pow2;
  }

  lemma {:induction false} ShareGrows(l: seq<nat>, p: nat, q: nat)
    requires Within(l, UNIT) && p <= q <= |l|
    ensures Share(l, p) <= Share(l, q) && (p < q ==> Share(l, p) < Share(l, q))
    decreases q
  {
    hide Pow2, Share;
    if p < q {
      ShareGrows(l, p, q - 1);
      ShareStep(l, q - 1);
    }
  }

  // ---- cutting at a power of two

  /** The rest from p on fills whole units of the code at p, because the codes do not get longer. */
  lemma {:induction false} RestWhole(l: seq<nat>, p: nat, u: nat) returns (k: nat)
    requires Within(l, UNIT) && p <= |l| && u <= UNIT && forall i :: p <= i < |l| ==> l[i] <= u
    ensures Share(l, |l|) == Share(l, p) + Mul(k, Pow2(UNIT - u))
    decreases |l| - p
  {
    hide Pow2, Share, Mul;
    if p == |l| {
      k := 0;
      NoMul(Pow2(UNIT - u));
    } else {
      var m := RestWhole(l, p + 1, u);
      ShareStep(l, p);
      var v := Pow2(u - l[p]);
      MulPow2(u - l[p], UNIT - u);
      MulAdd(m, v, Pow2(UNIT - u));
      k := m + v;
    }
  }

  /** Somewhere the first items take up exactly a share of 2^-j, if the longest code has j bits. */
  lemma {:induction false} CutAt(l: seq<nat>, j: nat, p: nat) returns (q: nat)
    requires |l| > 0 && Within(l, UNIT) && Share(l, |l|) == Pow2(UNIT) && j <= l[0] && p <= |l|
    requires forall i, k :: 0 <= i <= k < |l| ==> l[i] >= l[k]
    requires Share(l, p) <= Pow2(UNIT - j)
    ensures p <= q <= |l| && Share(l, q) == Pow2(UNIT - j)
    decreases |l| - p
  {
    hide Pow2, Share;
    if Share(l, p) == Pow2(UNIT - j) {
      q := p;
    } else if p == |l| {
      Pow2Monotone(UNIT - j, UNIT);
      assert false;
    } else {
      NotPast(l, j, p);
      q := CutAt(l, j, p + 1);
    }
  }

  lemma NotPast(l: seq<nat>, j: nat, p: nat)
    requires |l| > 0 && Within(l, UNIT) && Share(l, |l|) == Pow2(UNIT) && j <= l[0] && p < |l|
    requires forall i, k :: 0 <= i <= k < |l| ==> l[i] >= l[k]
    requires Share(l, p) < Pow2(UNIT - j)
    ensures Share(l, p + 1) <= Pow2(UNIT - j)
  {
    hide Pow2, Share, Mul;
    var unit := Pow2(UNIT - l[p]);
    var rest := RestWhole(l, p, l[p]);
    MulPow2(l[p], UNIT - l[p]);
    ShareStep(l, p);
    var whole := Pow2(l[p]);
    CancelMul(rest, whole, unit);
    MulAdd(whole - rest, rest, unit);
    var k: nat := whole - rest;
    assert Share(l, p) == Mul(k, unit);
    if l[p] >= j {
      MulPow2(l[p] - j, UNIT - l[p]);
      MulBelow(k, Pow2(l[p] - j), unit);
    } else {
      Pow2Monotone(UNIT - j, UNIT - l[p]);
      MulNotOne(k, unit);
      ShareGrows(l, 0, p);
      assert false;
    }
  }

  lemma MulBelow(a: nat, b: nat, w: nat)
    requires w > 0 && Mul(a, w) < Mul(b, w)
    ensures a < b && Mul(a, w) + w <= Mul(b, w)
  {
    if a >= b {
      MulMonotone(b, a, w);
      assert false;
    }
    MulMonotone(a + 1, b, w);
  }

  lemma MulNotOne(k: nat, w: nat)
    requires Mul(k, w) < w
    ensures k == 0 && Mul(k, w) == 0
  {
  }

  // ---- exchanging lengths

  /** One bit less for the first x items, one bit more for those from y to z. */
  ghost function Exchanged(l: seq<nat>, x: nat, y: nat, z: nat): (e: seq<nat>)
    requires x <= y <= z <= |l| && forall i :: 0 <= i < |l| ==> 1 <= l[i]
    ensures |e| == |l|
    ensures forall i :: 0 <= i < |l| ==>
              e[i] == if i < x then l[i] - 1 else if y <= i < z then l[i] + 1 else l[i]
  {
    seq(|l|, i requires 0 <= i < |l| => if i < x then l[i] - 1 else if y <= i < z then l[i] + 1 else l[i])
  }

  lemma WeightExchanged(l: nat)
    requires 1 <= l <= UNIT
    ensures Pow2(UNIT + 1 - (l - 1)) == Mul(4, Pow2(UNIT - l))
    ensures Pow2(UNIT + 1 - l) == Mul(2, Pow2(UNIT - l))
    ensures Pow2(UNIT + 1 - (l + 1)) == Mul(1, Pow2(UNIT - l))
  {
    hide Pow2;
    MulIsProduct(4, Pow2(UNIT - l));
    MulIsProduct(2, Pow2(UNIT - l));
    MulIsProduct(1, Pow2(UNIT - l));
    Doubled(UNIT - l);
    Doubled(UNIT - l + 1);
  }

  lemma Doubled(n: nat)
    ensures Pow2(n + 1) == 2 * Pow2(n)
  {
  }

  lemma ExchangedKraft(l: seq<nat>, x: nat, y: nat, z: nat)
    requires x <= y <= z <= |l| && Within(l, UNIT) && forall i :: 0 <= i < |l| ==> 1 <= l[i]
    ensures Within(Exchanged(l, x, y, z), UNIT + 1)
    ensures KraftSum(Exchanged(l, x, y, z), UNIT + 1) + Share(l, z)
         == 2 * Share(l, |l|) + 2 * Share(l, x) + Share(l, y)
  {
    hide Pow2, Mul, Sum, Share;
    var e := Exchanged(l, x, y, z);
    assert Within(e, UNIT + 1);
    var c, w := Weights(e, UNIT + 1), Weights(l, UNIT);
    forall i | 0 <= i < |l|
      ensures c[i] == if i < x then Mul(4, w[i]) else if y <= i < z then Mul(1, w[i]) else Mul(2, w[i])
    {
      WeightExchanged(l[i]);
    }
    SumScaled(c, w, 4, 0, x);
    SumScaled(c, w, 2, x, y);
    SumScaled(c, w, 1, y, z);
    SumScaled(c, w, 2, z, |l|);
    FourParts(c, x, y, z);
    FourParts(w, x, y, z);
    ShareIs(l, x);
    ShareIs(l, y);
    ShareIs(l, z);
    ShareIs(l, |l|);
    MulIsProduct(4, Sum(w, 0, x));
    MulIsProduct(2, Sum(w, x, y));
    MulIsProduct(1, Sum(w, y, z));
    MulIsProduct(2, Sum(w, z, |l|));
  }

  lemma ShareIs(l: seq<nat>, p: nat)
    requires Within(l, UNIT) && p <= |l|
    ensures Share(l, p) == Sum(Weights(l, UNIT), 0, p)
  {
  }

  lemma FourParts(s: seq<nat>, x: nat, y: nat, z: nat)
    requires x <= y <= z <= |s|
    ensures Sum(s, 0, y) == Sum(s, 0, x) + Sum(s, x, y)
    ensures Sum(s, 0, z) == Sum(s, 0, y) + Sum(s, y, z)
    ensures Total(s) == Sum(s, 0, |s|) == Sum(s, 0, z) + Sum(s, z, |s|)
  {
    hide Sum;
    SumSplit(s, 0, x, y);
    SumSplit(s, 0, y, z);
    SumSplit(s, 0, z, |s|);
  }

  lemma {:induction false} SumPlus(c: seq<nat>, d: seq<nat>, w: seq<nat>, lo: nat, hi: nat)
    requires lo <= hi <= |c| && |c| == |d| == |w| && forall i :: lo <= i < hi ==> c[i] == d[i] + w[i]
    ensures Sum(c, lo, hi) == Sum(d, lo, hi) + Sum(w, lo, hi)
    decreases hi
  {
    if lo < hi { SumPlus(c, d, w, lo, hi - 1); }
  }

  lemma ExchangedCosts(w: seq<nat>, l: seq<nat>, x: nat, y: nat, z: nat, i: nat)
    requires x <= y <= z <= |l| == |w| && i < |l| && forall k :: 0 <= k < |l| ==> 1 <= l[k]
    ensures var c, d := Costs(w, Exchanged(l, x, y, z)), Costs(w, l);
            if i < x then d[i] == c[i] + w[i] else if y <= i < z then c[i] == d[i] + w[i] else c[i] == d[i]
  {
    hide Mul;
    if i < x {
      OneMore(l[i] - 1, w[i]);
    } else if y <= i < z {
      OneMore(l[i], w[i]);
    }
  }

  lemma ExchangedCost(w: seq<nat>, l: seq<nat>, x: nat, y: nat, z: nat)
    requires x <= y <= z <= |l| == |w| && forall i :: 0 <= i < |l| ==> 1 <= l[i]
    ensures Cost(w, Exchanged(l, x, y, z)) + Sum(w, 0, x) + Sum(w, 0, y) == Cost(w, l) + Sum(w, 0, z)
  {
    hide Mul, Sum, Exchanged, Costs;
    var c: seq<nat>, d: seq<nat> := Costs(w, Exchanged(l, x, y, z)), Costs(w, l);
    forall i | 0 <= i < |l|
      ensures if i < x then d[i] == c[i] + w[i] else if y <= i < z then c[i] == d[i] + w[i] else c[i] == d[i]
    {
      ExchangedCosts(w, l, x, y, z, i);
    }
    SumPlus(d, c, w, 0, x);
    SumSame(c, d, x, y);
    SumPlus(c, d, w, y, z);
    SumSame(c, d, z, |l|);
    FourParts(c, x, y, z);
    FourParts(d, x, y, z);
    FourParts(w, x, y, z);
  }

  lemma OneMore(n: nat, w: nat)
    ensures Mul(n + 1, w) == Mul(n, w) + w
  {
  }

  /** No exchange pays: what takes up a share of 2^-j weighs at least the half and the quarter of it. */
  lemma NoExchangePays(w: seq<nat>, l: seq<nat>, j: nat, x: nat, y: nat, z: nat)
    requires Minimum(w, l) && Within(l, UNIT) && j + 2 <= UNIT && x <= y <= z <= |l|
    requires Share(l, z) == Pow2(UNIT - j) && Share(l, y) == Pow2(UNIT - j - 1) && Share(l, x) == Pow2(UNIT - j - 2)
    ensures Sum(w, 0, z) >= Sum(w, 0, y) + Sum(w, 0, x)
  {
    hide Pow2, Sum, Share, KraftSum, Cost;
    MinimumIs(w, l);
    ExchangedKraft(l, x, y, z);
    ExchangedCost(w, l, x, y, z);
    Doubled(UNIT - j - 1);
    Doubled(UNIT - j - 2);
    Doubled(UNIT);
    var e := Exchanged(l, x, y, z);
    assert Allowed(e, UNIT + 1);
  }

  // ---- the Fibonacci numbers

  /** Places where the first items take up shares of 2^-j and 2^-(j + 1), and the weight of all items
      in terms of their weights. */
  lemma {:induction false} Chain(w: seq<nat>, l: seq<nat>, j: nat) returns (p: nat, q: nat)
    requires Minimum(w, l) && Within(l, UNIT) && j + 1 <= l[0]
    ensures q <= p <= |l| && j + 1 <= UNIT
    ensures Share(l, p) == Pow2(UNIT - j) && Share(l, q) == Pow2(UNIT - j - 1)
    ensures Total(w) >= Fibonacci(j + 1) * Sum(w, 0, p) + Fibonacci(j) * Sum(w, 0, q)
  {
    hide Pow2, Sum, Share, Minimum;
    MinimumIs(w, l);
    MinimumNonEmpty(w, l);
    if j == 0 {
      p := |l|;
      q := CutBelow(w, l, 1);
      Pow2Monotone(UNIT - 1, UNIT);
      Ordered(l, q, p);
    } else {
      var z;
      z, p := Chain(w, l, j - 1);
      q := CutBelow(w, l, j + 1);
      Pow2Monotone(UNIT - j - 1, UNIT - j);
      Doubled(UNIT - j - 1);
      Ordered(l, q, p);
      NoExchangePays(w, l, j - 1, q, p, z);
      ChainArithmetic(Fibonacci(j), Fibonacci(j - 1), Sum(w, 0, z), Sum(w, 0, p), Sum(w, 0, q));
    }
  }

  lemma MinimumNonEmpty(w: seq<nat>, l: seq<nat>)
    requires Minimum(w, l)
    ensures |l| == |w| > 0 && Total(w) == Sum(w, 0, |l|)
  {
  }

  lemma ChainArithmetic(f: nat, g: nat, z: nat, p: nat, q: nat)
    requires z >= p + q
    ensures f * z + g * p >= (f + g) * p + f * q
  {
    assert f * z >= f * (p + q);
  }

  lemma Ordered(l: seq<nat>, q: nat, p: nat)
    requires Within(l, UNIT) && p <= |l| && q <= |l| && Share(l, q) <= Share(l, p)
    ensures q <= p
  {
    hide Share;
    if p < q {
      ShareGrows(l, p, q);
      assert false;
    }
  }

  lemma CutBelow(w: seq<nat>, l: seq<nat>, j: nat) returns (q: nat)
    requires Minimum(w, l) && Within(l, UNIT) && j <= l[0]
    ensures j <= UNIT && q <= |l| && Share(l, q) == Pow2(UNIT - j)
  {
    hide Pow2, Share, Minimum;
    MinimumIs(w, l);
    MinimumNonEmpty(w, l);
    ShareStep(l, 0);
    q := CutAt(l, j, 0);
  }

  /** The first items of a minimum code, with a share of at most 2^-a of the code space, weigh at most
      one part in Fib(a + 1) of all items. */
  lemma LightPart(w: seq<nat>, l: seq<nat>, a: nat, g: nat)
    requires Minimum(w, l) && Within(l, UNIT) && 1 <= a <= l[0] && a <= UNIT && g <= |l|
    requires Share(l, g) <= Pow2(UNIT - a)
    ensures Fibonacci(a + 1) * Sum(w, 0, g) <= Total(w)
  {
    hide Pow2, Sum, Share, Minimum;
    MinimumIs(w, l);
    var p, q := Chain(w, l, a - 1);
    Ordered(l, g, q);
    SumSplit(w, 0, g, q);
    Doubled(UNIT - a);
    Ordered(l, q, p);
    SumSplit(w, 0, q, p);
    LightArithmetic(Fibonacci(a), Fibonacci(a - 1), Sum(w, 0, p), Sum(w, 0, q), Sum(w, 0, g));
  }

  lemma LightArithmetic(f: nat, h: nat, p: nat, q: nat, g: nat)
    requires g <= q <= p
    ensures (f + h) * g <= f * p + h * q
  {
    assert f * g <= f * p && h * g <= h * q;
  }

  /** A code of a bits needs items that weigh Fib(a + 1) in all. */
  lemma LongHeavy(w: seq<nat>, l: seq<nat>, a: nat)
    requires Minimum(w, l) && |l| > 0 && 1 <= a <= l[0] && Positive(w)
    ensures Total(w) >= Fibonacci(a + 1)
  {
    hide Pow2, Sum, Share, Minimum, Fibonacci;
    MinimumIs(w, l);
    var q := CutBelow(w, l, a);
    ShareStep(l, 0);
    SumSplit(w, 0, 1, q);
    SumOne(w, 0);
    LightPart(w, l, a, q);
    TimesPositive(Fibonacci(a + 1), Sum(w, 0, q));
  }

  lemma TimesPositive(f: nat, n: nat)
    requires n >= 1
    ensures f * n >= f
  {
  }
}
