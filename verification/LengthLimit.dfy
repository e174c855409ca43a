/** Limiting the lengths of a Huffman code: the counts of codes per length are changed in place
    until no length exceeds the limit and the code is complete again. */
module LengthLimit {
  import opened Bits

  const MAX_SUPPORTED: nat := 32

  type Counts = seq<nat>

  /** The Kraft sum over the lengths 1..n, in units of 2^-max. */
  ghost function Kraft(c: Counts, max: nat, n: nat): nat
    requires n < |c| && n <= max
  {
    if n == 0 then 0 else Kraft(c, max, n - 1) + Mul(c[n], Pow2(max - n))
  }

  /** How many codes have a length in lo..hi. */
  ghost function Total(c: Counts, lo: nat, hi: nat): nat
    requires hi < |c|
    decreases hi
  {
    if hi < lo || hi == 0 then 0 else Total(c, lo, hi - 1) + c[hi]
  }

  /** A finer unit multiplies the sum. */
  lemma {:induction false} KraftScale(c: Counts, max: nat, fine: nat, n: nat)
    requires n < |c| && n <= max <= fine
    ensures Kraft(c, fine, n) == Mul(Kraft(c, max, n), Pow2(fine - max))
  {
    if n > 0 {
      KraftScale(c, max, fine, n - 1);
      var p := Pow2(fine - max);
      MulAdd(Kraft(c, max, n - 1), Mul(c[n], Pow2(max - n)), p);
      MulNest(c[n], Pow2(max - n), p);
      MulPow2(max - n, fine - max);
    }
  }

  lemma {:induction false} MulNest(a: nat, b: nat, w: nat)
    ensures Mul(Mul(a, b), w) == Mul(a, Mul(b, w))
  {
    if a > 0 {
      MulNest(a - 1, b, w);
      MulAdd(Mul(a - 1, b), b, w);
    }
  }

  /** The codes longer than max weigh no more than as many codes of length max. */
  lemma {:induction false} LongCodesLighter(c: Counts, max: nat, n: nat)
    requires 1 <= max <= n <= MAX_SUPPORTED < |c|
    ensures Kraft(c, MAX_SUPPORTED, n)
         <= Kraft(c, MAX_SUPPORTED, max - 1) + Mul(Total(c, max, n), Pow2(MAX_SUPPORTED - max))
    decreases n
  {
    hide Pow2;
    var p := Pow2(MAX_SUPPORTED - max);
    if n > max {
      LongCodesLighter(c, max, n - 1);
      MulAdd(Total(c, max, n - 1), c[n], p);
      Pow2Monotone(MAX_SUPPORTED - n, MAX_SUPPORTED - max);
      MulMonotone2(c[n], Pow2(MAX_SUPPORTED - n), p);
    } else {
      assert Total(c, max, n) == c[n];
    }
  }

  lemma {:induction false} KraftAdd(c: Counts, max: nat, n: nat, i: nat, d: nat)
    requires n < |c| && n <= max && 1 <= i < |c| && i <= max
    ensures Kraft(c[i := c[i] + d], max, n) == Kraft(c, max, n) + if i <= n then Mul(d, Pow2(max - i)) else 0
  {
    hide Pow2, Mul;
    if n > 0 {
      KraftAdd(c, max, n - 1, i, d);
      if i == n { MulAdd(c[i], d, Pow2(max - i)); }
    } else {
      assert Mul(c[i], 0) >= 0;
    }
  }

  lemma {:induction false} TotalAdd(c: Counts, lo: nat, hi: nat, i: nat, d: nat)
    requires hi < |c| && 1 <= i < |c|
    ensures Total(c[i := c[i] + d], lo, hi) == Total(c, lo, hi) + if lo <= i <= hi then d else 0
    decreases hi
  {
    if hi >= lo && hi > 0 { TotalAdd(c, lo, hi - 1, i, d); }
  }

  lemma {:induction false} TotalSplit(c: Counts, m: nat, hi: nat)
    requires 1 <= m <= hi < |c|
    ensures Total(c, 1, hi) == Total(c, 1, m - 1) + Total(c, m, hi)
    decreases hi
  {
    if hi > m {
      TotalSplit(c, m, hi - 1);
    }
  }

  lemma {:induction false} NoShortCodes(c: Counts, max: nat, n: nat)
    requires n < |c| && n <= max && forall i :: 1 <= i <= n ==> c[i] == 0
    ensures Kraft(c, max, n) == 0 && Total(c, 1, n) == 0
  {
    if n > 0 { NoShortCodes(c, max, n - 1); }
  }

  /** Some code is shorter than max as long as the sum is too large. */
  lemma ShorterExists(c: Counts, max: nat)
    requires 1 <= max < |c|
    requires Total(c, 1, max) <= Pow2(max) < Kraft(c, max, max)
    ensures exists i :: 1 <= i < max && c[i] > 0
  {
    if forall i :: 1 <= i < max ==> c[i] == 0 {
      NoShortCodes(c, max, max - 1);
      MulIsProduct(c[max], 1);
      assert false;
    }
  }

  /** The state of the repair loop: total is the Kraft sum, at least one; what lies above the sum
      of one is carried by codes of the greatest length. */
  ghost predicate Repairing(c: Counts, max: nat, codes: nat, total: nat) {
    && 1 <= max < |c|
    && Kraft(c, max, max) == total >= Pow2(max)
    && Kraft(c, max, max - 1) <= Pow2(max)
    && Total(c, 1, max) == codes <= Pow2(max)
  }

  /** The counts after one repair step that splits a code of length i. */
  ghost function Repaired(c: Counts, max: nat, i: nat): Counts
    requires 1 <= i < max < |c| && c[max] > 0 && c[i] > 0
  {
    var c1 := c[max := c[max] - 1];
    var c2 := c1[i := c1[i] - 1];
    c2[i + 1 := c2[i + 1] + 2]
  }

  /** A step lowers the sum by one unit and keeps the number of codes. */
  lemma RepairStep(c: Counts, max: nat, codes: nat, total: nat, i: nat)
    requires Repairing(c, max, codes, total) && total > Pow2(max)
    requires 1 <= i < max && c[i] > 0
    ensures c[max] > 0
    ensures Repairing(Repaired(c, max, i), max, codes, total - 1)
  {
    hide Pow2, Repaired;
    Pow2Zero();
    MulIsProduct(c[max], 1);
    RepairKraft(c, max, i);
    RepairTotal(c, max, i);
  }

  lemma RepairKraft(c: Counts, max: nat, i: nat)
    requires 1 <= i < max < |c| && c[i] > 0 && c[max] > 0
    ensures Kraft(Repaired(c, max, i), max, max) + 1 == Kraft(c, max, max)
    ensures Kraft(Repaired(c, max, i), max, max - 1) <= Kraft(c, max, max - 1)
    ensures |Repaired(c, max, i)| == |c|
  {
    hide Pow2, Kraft, Mul;
    var c1 := c[max := c[max] - 1];
    var c2 := c1[i := c1[i] - 1];
    StepKraft(c, c1, max, max);
    StepKraft(c1, c2, max, i);
    KraftAdd(c2, max, max, i + 1, 2);
    KraftAdd(c2, max, max - 1, i + 1, 2);
    HalfWeights(max, i);
    Pow2Zero();
    MulIsProduct(1, 1);
  }

  lemma RepairTotal(c: Counts, max: nat, i: nat)
    requires 1 <= i < max < |c| && c[i] > 0 && c[max] > 0
    ensures Total(Repaired(c, max, i), 1, max) == Total(c, 1, max)
  {
    hide Total;
    var c1 := c[max := c[max] - 1];
    var c2 := c1[i := c1[i] - 1];
    TotalAdd(c1, 1, max, max, 1);
    TotalAdd(c2, 1, max, i, 1);
    assert c1[max := c1[max] + 1] == c;
    assert c2[i := c2[i] + 1] == c1;
    TotalAdd(c2, 1, max, i + 1, 2);
  }

  lemma Pow2Zero()
    ensures Pow2(0) == 1
  {
  }

  lemma HalfWeights(max: nat, i: nat)
    requires i < max
    ensures Mul(2, Pow2(max - i - 1)) == Pow2(max - i) == Mul(1, Pow2(max - i))
  {
    MulIsProduct(2, Pow2(max - i - 1));
    MulIsProduct(1, Pow2(max - i));
  }

  /** Taking one code of length i away. */
  lemma StepKraft(c: Counts, d: Counts, max: nat, i: nat)
    requires 1 <= i <= max < |c| && c[i] > 0 && d == c[i := c[i] - 1]
    ensures Kraft(c, max, max) == Kraft(d, max, max) + Mul(1, Pow2(max - i))
    ensures Kraft(c, max, max - 1) == Kraft(d, max, max - 1) + if i < max then Mul(1, Pow2(max - i)) else 0
  {
    hide Pow2, Mul, Kraft;
    assert d[i := d[i] + 1] == c;
    KraftAdd(d, max, max, i, 1);
    KraftAdd(d, max, max - 1, i, 1);
  }

  /** After folding the long codes into length max the repair loop can start. */
  lemma FoldedIsRepairing(c: Counts, folded: Counts, max: nat, codes: nat)
    requires |c| == MAX_SUPPORTED + 1 && 1 <= max < MAX_SUPPORTED
    requires Kraft(c, MAX_SUPPORTED, MAX_SUPPORTED) == Pow2(MAX_SUPPORTED)
    requires Total(c, 1, MAX_SUPPORTED) == codes <= Pow2(max)
    requires folded == c[max := Total(c, max, MAX_SUPPORTED)]
    ensures Repairing(folded, max, codes, Kraft(folded, max, max))
  {
    hide Pow2, Kraft, Total;
    ShortCodesFit(c, max);
    FoldedWeight(c, folded, max);
    TotalSplit(c, max, MAX_SUPPORTED);
    TotalOther(c, folded, max - 1);
    TotalLast(folded, max);
  }

  lemma TotalLast(c: Counts, max: nat)
    requires 1 <= max < |c|
    ensures Total(c, 1, max) == Total(c, 1, max - 1) + c[max]
  {
  }

  lemma ShortCodesFit(c: Counts, max: nat)
    requires |c| == MAX_SUPPORTED + 1 && 1 <= max < MAX_SUPPORTED
    requires Kraft(c, MAX_SUPPORTED, MAX_SUPPORTED) == Pow2(MAX_SUPPORTED)
    ensures Kraft(c, max, max - 1) <= Pow2(max)
  {
    hide Pow2, Kraft;
    KraftScale(c, max, MAX_SUPPORTED, max - 1);
    KraftGrows(c, MAX_SUPPORTED, max - 1, MAX_SUPPORTED);
    MulPow2(max, MAX_SUPPORTED - max);
    CancelMul(Kraft(c, max, max - 1), Pow2(max), Pow2(MAX_SUPPORTED - max));
  }

  lemma FoldedWeight(c: Counts, folded: Counts, max: nat)
    requires |c| == MAX_SUPPORTED + 1 && 1 <= max < MAX_SUPPORTED
    requires Kraft(c, MAX_SUPPORTED, MAX_SUPPORTED) == Pow2(MAX_SUPPORTED)
    requires folded == c[max := Total(c, max, MAX_SUPPORTED)]
    ensures Kraft(folded, max, max) >= Pow2(max)
    ensures Kraft(folded, max, max - 1) == Kraft(c, max, max - 1)
  {
    hide Pow2, Total, Mul;
    var p, short := Pow2(MAX_SUPPORTED - max), Kraft(c, max, max - 1);
    KraftScale(c, max, MAX_SUPPORTED, max - 1);
    LongCodesLighter(c, max, MAX_SUPPORTED);
    MulPow2(max, MAX_SUPPORTED - max);
    MulAdd(short, folded[max], p);
    KraftOther(c, folded, max, max - 1);
    CancelMul(Pow2(max), short + folded[max], p);
    Pow2Zero();
    MulIsProduct(folded[max], 1);
  }

  lemma {:induction false} KraftGrows(c: Counts, max: nat, m: nat, n: nat)
    requires m <= n < |c| && n <= max
    ensures Kraft(c, max, m) <= Kraft(c, max, n)
    decreases n
  {
    if m < n { KraftGrows(c, max, m, n - 1); }
  }

  lemma {:induction false} KraftOther(c: Counts, d: Counts, max: nat, n: nat)
    requires |c| == |d| && n < |c| && n <= max && forall i :: 0 <= i <= n ==> c[i] == d[i]
    ensures Kraft(c, max, n) == Kraft(d, max, n)
  {
    if n > 0 { KraftOther(c, d, max, n - 1); }
  }

  lemma {:induction false} TotalOther(c: Counts, d: Counts, n: nat)
    requires |c| == |d| && n < |c| && forall i :: 0 <= i <= n ==> c[i] == d[i]
    ensures Total(c, 1, n) == Total(d, 1, n)
  {
    if n > 0 { TotalOther(c, d, n - 1); }
  }

  // ---- which lengths are touched

  /** The repairs so far left the counts c0 below i alone and split codes of length i: the last time,
      one more than the codes up to i and all others at length max were too many. */
  ghost predicate Touched(c0: Counts, c: Counts, max: nat, i: nat, codes: nat) {
    && 1 <= i < max < |c| <= |c0|
    && (forall k :: 1 <= k < i ==> c[k] == c0[k])
    && c[i] < c0[i]
    && Kraft(c, max, i) + Pow2(max - i) + codes > Pow2(max) + Total(c, 1, i) + 1
  }

  /** What limiting does to counts: long codes are folded into length max, and either that was all or
      codes from some length on were split. */
  ghost predicate Limited(c0: Counts, c: Counts, max: nat, codes: nat) {
    && |c0| == |c| == MAX_SUPPORTED + 1 && max < MAX_SUPPORTED
    && (c == c0[max := Total(c0, max, MAX_SUPPORTED)]
        || (Total(c0, max + 1, MAX_SUPPORTED) > 0 && exists i :: Touched(c0, c, max, i, codes)))
  }

  /** Where repairing continues: at the longest length below max that is used. */
  ghost predicate Splits(c: Counts, max: nat, i: nat) {
    1 <= i < max < |c| && c[max] > 0 && c[i] > 0 && forall k :: i < k < max ==> c[k] == 0
  }

  lemma {:induction false} KraftTail(c: Counts, max: nat, i: nat, n: nat)
    requires i <= n < max < |c| && forall k :: i < k <= n ==> c[k] == 0
    ensures Kraft(c, max, n) == Kraft(c, max, i) && Total(c, 1, n) == Total(c, 1, i)
    decreases n
  {
    if i < n { KraftTail(c, max, i, n - 1); }
  }

  /** The counts up to i after a step at i. */
  lemma RepairedPrefix(c: Counts, max: nat, i: nat)
    requires Splits(c, max, i)
    ensures var r := Repaired(c, max, i);
            && |r| == |c| && r[i] == c[i] - 1 && (forall k :: 1 <= k < i ==> r[k] == c[k])
            && Kraft(r, max, i) + Pow2(max - i) == Kraft(c, max, i)
            && Total(r, 1, i) + 1 == Total(c, 1, i)
  {
    hide Pow2, Mul, Kraft, Total;
    var d := c[i := c[i] - 1];
    assert d[i := d[i] + 1] == c;
    KraftAdd(d, max, i, i, 1);
    TotalAdd(d, 1, i, i, 1);
    MulIsProduct(1, Pow2(max - i));
    KraftOther(Repaired(c, max, i), d, max, i);
    TotalOther(Repaired(c, max, i), d, i);
  }

  /** A step touches its own length first. */
  lemma FirstTouch(c0: Counts, c: Counts, max: nat, codes: nat, total: nat, i: nat)
    requires Repairing(c, max, codes, total) && total > Pow2(max) && Splits(c, max, i)
    requires |c0| == |c| && forall k :: 1 <= k < i ==> c[k] == c0[k]
    requires c[i] <= c0[i]
    ensures Touched(c0, Repaired(c, max, i), max, i, codes)
  {
    hide Pow2, Mul, Repaired;
    RepairedPrefix(c, max, i);
    KraftTail(c, max, i, max - 1);
    Pow2Zero();
    MulIsProduct(c[max], 1);
  }

  /** A step above the first length touched changes nothing up to it. */
  lemma LaterTouch(c0: Counts, c: Counts, max: nat, codes: nat, i: nat, j: nat)
    requires Touched(c0, c, max, i, codes) && Splits(c, max, j) && i < j
    ensures Touched(c0, Repaired(c, max, j), max, i, codes)
  {
    hide Pow2, Kraft, Total;
    KraftOther(Repaired(c, max, j), c, max, i);
    TotalOther(Repaired(c, max, j), c, i);
  }

  /** Every step keeps what limiting is known to do. */
  lemma LimitedStep(c0: Counts, c: Counts, max: nat, codes: nat, total: nat, i: nat)
    requires Repairing(c, max, codes, total) && total > Pow2(max) && Splits(c, max, i)
    requires Limited(c0, c, max, codes) && Total(c0, max + 1, MAX_SUPPORTED) > 0
    ensures Limited(c0, Repaired(c, max, i), max, codes)
  {
    hide Pow2, Kraft, Total, Repairing, Repaired;
    RepairedSize(c, max, i);
    if c == c0[max := Total(c0, max, MAX_SUPPORTED)] {
      FirstTouch(c0, c, max, codes, total, i);
    } else {
      var f: nat :| Touched(c0, c, max, f, codes);
      if f < i {
        LaterTouch(c0, c, max, codes, f, i);
      } else {
        FirstTouch(c0, c, max, codes, total, i);
      }
    }
  }

  lemma RepairedSize(c: Counts, max: nat, i: nat)
    requires Splits(c, max, i)
    ensures |Repaired(c, max, i)| == |c|
  {
  }

  /** Without codes longer than max there is nothing to repair. */
  lemma LongCodesOnly(c: Counts, folded: Counts, max: nat)
    requires |c| == MAX_SUPPORTED + 1 && 1 <= max < MAX_SUPPORTED
    requires Kraft(c, MAX_SUPPORTED, MAX_SUPPORTED) == Pow2(MAX_SUPPORTED)
    requires folded == c[max := Total(c, max, MAX_SUPPORTED)] && Kraft(folded, max, max) != Pow2(max)
    ensures Total(c, max + 1, MAX_SUPPORTED) > 0
  {
    hide Pow2, Kraft, Mul, Total;
    if Total(c, max + 1, MAX_SUPPORTED) == 0 {
      NothingLonger(c, max, MAX_SUPPORTED);
      assert folded == c;
      KraftScale(c, max, MAX_SUPPORTED, max);
      MulPow2(max, MAX_SUPPORTED - max);
      CancelMul(Pow2(max), Kraft(c, max, max), Pow2(MAX_SUPPORTED - max));
      CancelMul(Kraft(c, max, max), Pow2(max), Pow2(MAX_SUPPORTED - max));
      assert false;
    }
  }

  lemma {:induction false} NothingLonger(c: Counts, max: nat, n: nat)
    requires 1 <= max <= n <= MAX_SUPPORTED < |c| && Total(c, max + 1, n) == 0
    ensures Total(c, max, n) == c[max] && Kraft(c, MAX_SUPPORTED, n) == Kraft(c, MAX_SUPPORTED, max)
    decreases n
  {
    hide Pow2;
    if n > max {
      NothingLonger(c, max, n - 1);
    }
  }

  /** tdefl_huffman_enforce_max_code_size. The counts are natural numbers, so verification shows
      that none becomes negative; the inner loop is shown always to find a shorter code. */
  method EnforceMaxCodeSize(numCodes: array<nat>, listLen: nat, max: nat)
    requires numCodes.Length == MAX_SUPPORTED + 1 && 1 <= max < MAX_SUPPORTED
    requires listLen > 1 ==>
               && Kraft(numCodes[..], MAX_SUPPORTED, MAX_SUPPORTED) == Pow2(MAX_SUPPORTED)
               && Total(numCodes[..], 1, MAX_SUPPORTED) == listLen <= Pow2(max)
    modifies numCodes
    ensures listLen <= 1 ==> numCodes[..] == old(numCodes[..])
    ensures listLen > 1 ==>
              && Kraft(numCodes[..], max, max) == Pow2(max)
              && Total(numCodes[..], 1, max) == listLen
              && Limited(old(numCodes[..]), numCodes[..], max, listLen)
  {
    hide Pow2, Kraft, Total, Touched;
    if listLen <= 1 {
      return;
    }
    ghost var c0 := numCodes[..];
    Fold(numCodes, max);
    FoldedIsRepairing(c0, numCodes[..], max, listLen);
    var total := SumWeights(numCodes, max);
    if total != Pow2(max) {
      LongCodesOnly(c0, numCodes[..], max);
    }
    while total != Pow2(max)
      invariant Repairing(numCodes[..], max, listLen, total)
      invariant Limited(c0, numCodes[..], max, listLen)
      invariant total != Pow2(max) ==> Total(c0, max + 1, MAX_SUPPORTED) > 0
      decreases total
    {
      ghost var c := numCodes[..];
      ghost var i;
      total, i := Repair(numCodes, max, total, listLen);
      LimitedStep(c0, c, max, listLen, total + 1, i);
    }
  }

  /** One pass of the repair loop: a code of the longest length below max is split. */
  method Repair(numCodes: array<nat>, max: nat, total: nat, ghost codes: nat) returns (r: nat, ghost at: nat)
    requires numCodes.Length == MAX_SUPPORTED + 1 && 1 <= max < MAX_SUPPORTED
    requires Repairing(numCodes[..], max, codes, total) && total > Pow2(max)
    modifies numCodes
    ensures Repairing(numCodes[..], max, codes, r) && r == total - 1
    ensures Splits(old(numCodes[..]), max, at) && numCodes[..] == Repaired(old(numCodes[..]), max, at)
  {
    hide Pow2, Kraft, Total;
    ghost var c := numCodes[..];
    ShorterExists(c, max);
    ghost var w :| 1 <= w < max && c[w] > 0;
    RepairStep(c, max, codes, total, w);
    numCodes[max] := numCodes[max] - 1;
    var i := max - 1;
    while i > 0 && numCodes[i] == 0
      invariant w <= i < max
      invariant forall k :: i < k < max ==> c[k] == 0
    {
      i := i - 1;
    }
    RepairStep(c, max, codes, total, i);
    numCodes[i] := numCodes[i] - 1;
    numCodes[i + 1] := numCodes[i + 1] + 2;
    assert numCodes[..] == Repaired(c, max, i);
    r := total - 1;
    at := i;
  }

  /** Adds the counts of all longer codes to the greatest length. */
  method Fold(numCodes: array<nat>, max: nat)
    requires numCodes.Length == MAX_SUPPORTED + 1 && 1 <= max < MAX_SUPPORTED
    modifies numCodes
    ensures numCodes[..] == old(numCodes[..])[max := Total(old(numCodes[..]), max, MAX_SUPPORTED)]
  {
    ghost var c := numCodes[..];
    var i := max + 1;
    while i <= MAX_SUPPORTED
      invariant max < i <= MAX_SUPPORTED + 1
      invariant numCodes[..] == c[max := Total(c, max, i - 1)]
    {
      numCodes[max] := numCodes[max] + numCodes[i];
      i := i + 1;
    }
  }

  method SumWeights(numCodes: array<nat>, max: nat) returns (total: nat)
    requires 1 <= max < numCodes.Length
    ensures total == Kraft(numCodes[..], max, max)
  {
    total := 0;
    var i := max;
    while i > 0
      invariant i <= max
      invariant total + Kraft(numCodes[..], max, i) == Kraft(numCodes[..], max, max)
    {
      MulIsProduct(numCodes[i], Pow2(max - i));
      total := total + numCodes[i] * Pow2(max - i);
      i := i - 1;
    }
  }
}
