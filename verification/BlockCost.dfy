/** How long a block with dynamic codes is, compared with the same tokens in fixed codes. */
module BlockCost {
  import opened Bytes
  import opened Bits
  import opened Canonical
  import opened InflateTable
  import opened Tokens
  import opened Reference
  import opened CodeLengthRle
  import opened BlockFormat
  import opened BlockHeaders
  import opened DynamicBlock
  import opened LzBuffer
  import opened HuffmanCodes
  import opened LightCodes
  import O = Optimality
  import M = Merge

  // ---- a block body, symbol by symbol

  function ExtraOf(k: Token): nat
    requires Recordable(k)
  {
    if k.Literal? then 0 else LenExtra(k.len - MIN_MATCH) + DistExtra(k.dist - 1)
  }

  function Extras(ks: seq<Token>): nat
    requires AllRecordable(ks)
  {
    if ks == [] then 0 else Extras(ks[..|ks| - 1]) + ExtraOf(ks[|ks| - 1])
  }

  lemma TokenSize(t: Tables, k: Token)
    requires Recordable(k) && Codable(t, k)
    ensures LitUse(k) < |t.lit| && (k.Match? ==> DistUse(k) < |t.dist|)
    ensures |TokenBits(t, k)| == t.lit[LitUse(k)] + ExtraOf(k) + if k.Match? then t.dist[DistUse(k)] else 0
  {
    hide LenSym, DistSym, LenExtra, DistExtra, Pow2, BitsOf;
  }

  /** One more occurrence of a symbol costs its length. */
  lemma CostOneMore(w: seq<nat>, d: seq<nat>, i: nat)
    requires |w| == |d| && i < |w|
    ensures O.Cost(w[i := w[i] + 1], d) == O.Cost(w, d) + d[i]
  {
    hide M.Sum, Mul;
    var c := O.Costs(w, d);
    O.SumUpdate(c, i, Mul(d[i], w[i] + 1));
    assert O.Costs(w[i := w[i] + 1], d) == c[i := Mul(d[i], w[i] + 1)];
    O.MulDistribute(d[i], w[i], 1);
    MulIsProduct(d[i], 1);
  }

  lemma {:induction false} CostOfNothing(d: seq<nat>)
    ensures O.Cost(Repeat(0, |d|), d) == 0
  {
    var c := O.Costs(Repeat(0, |d|), d);
    forall i | 0 <= i < |d|
      ensures c[i] == 0
    {
      O.MulZero(d[i]);
    }
    ZeroSum(c, |d|);
  }

  lemma {:induction false} ZeroSum(c: seq<nat>, n: nat)
    requires n <= |c| && forall i :: 0 <= i < |c| ==> c[i] == 0
    ensures M.Sum(c, 0, n) == 0
  {
    if n > 0 { ZeroSum(c, n - 1); }
  }

  /** The tokens take up their symbols' lengths, as often as they are counted, and the extra bits. */
  lemma {:induction false} TokensSize(t: Tables, ks: seq<Token>)
    requires AllRecordable(ks) && AllCodable(t, ks) && |t.lit| == 288 && |t.dist| == 32
    ensures |TokensBits(t, ks)| == O.Cost(LitCounts(ks), t.lit) + O.Cost(DistCounts(ks), t.dist) + Extras(ks)
  {
    hide O.Cost, TokenBits, Codable, Recordable, LitUse, DistUse, ExtraOf;
    if ks == [] {
      CostOfNothing(t.lit);
      CostOfNothing(t.dist);
    } else {
      var r, k := ks[..|ks| - 1], ks[|ks| - 1];
      TokensSize(t, r);
      TokenSize(t, k);
      CostOneMore(LitCounts(r), t.lit, LitUse(k));
      if k.Match? { CostOneMore(DistCounts(r), t.dist, DistUse(k)); }
    }
  }

  lemma {:induction false} NoEnd(ks: seq<Token>)
    requires AllRecordable(ks)
    ensures LitCounts(ks)[256] == 0
  {
    hide LitUse;
    if ks != [] { NoEnd(ks[..|ks| - 1]); }
  }

  /** The counts of a block: those of its tokens and one end-of-block code. */
  ghost function BodyCounts(ks: seq<Token>): (c: seq<nat>)
    requires AllRecordable(ks)
    ensures |c| == 288
  {
    LitCounts(ks)[256 := 1]
  }

  lemma BodySize(t: Tables, ks: seq<Token>)
    requires AllRecordable(ks) && AllCodable(t, ks) && |t.lit| == 288 && |t.dist| == 32
    ensures |BodyBits(t, ks)| == O.Cost(BodyCounts(ks), t.lit) + O.Cost(DistCounts(ks), t.dist) + Extras(ks)
  {
    hide O.Cost, TokensBits, AllCodable, LitCounts, DistCounts, Extras, Code;
    TokensSize(t, ks);
    NoEnd(ks);
    CostOneMore(LitCounts(ks), t.lit, 256);
  }

  lemma BodyTotal(ks: seq<Token>)
    requires AllRecordable(ks)
    ensures CountTotal(BodyCounts(ks), 288) == |ks| + 1 && CountTotal(DistCounts(ks), 32) <= |ks|
  {
    hide CountTotal, LitCounts, DistCounts;
    NoEnd(ks);
    LitCountsMean(ks);
    DistCountsMean(ks);
    TotalUpdate(LitCounts(ks), 256, 1, 288);
  }

  // ---- against the fixed codes

  lemma FixedServes(litCounts: seq<nat>, distCounts: seq<nat>)
    requires |litCounts| == 288 && |distCounts| == 32
    ensures Serves(StaticLit(), litCounts) && Serves(StaticDist(), distCounts)
  {
    hide Pow2, Below;
    StaticComplete();
  }

  lemma Fibonaccis()
    ensures Fibonacci(7) == 13 && Fibonacci(11) == 89 && Fibonacci(17) == 1597
  {
    assert Fibonacci(2) == 1 && Fibonacci(3) == 2;
    assert Fibonacci(4) == 3 && Fibonacci(5) == 5;
    assert Fibonacci(6) == 8 && Fibonacci(7) == 13;
    assert Fibonacci(8) == 21 && Fibonacci(9) == 34;
    assert Fibonacci(10) == 55 && Fibonacci(11) == 89;
    assert Fibonacci(12) == 144 && Fibonacci(13) == 233;
    assert Fibonacci(14) == 377 && Fibonacci(15) == 610;
    assert Fibonacci(16) == 987;
  }

  lemma NearByFixed(counts: seq<nat>, lens: seq<nat>, e: seq<nat>, limit: nat, a: nat)
    requires |lens| == |counts| && NearMinimum(counts, lens, limit) && Serves(e, counts)
    requires 1 <= a < limit && |counts| <= Pow2(limit - a)
    ensures |e| == |counts| && NearBy(counts, lens, e, limit, a)
    ensures CountTotal(counts, |counts|) < Fibonacci(limit + 2) ==> O.Cost(counts, lens) <= O.Cost(counts, e)
  {
    hide NearBy, Fibonacci, CountTotal, O.Cost, Pow2, Feasible;
  }

  lemma NearByMeans(counts: seq<nat>, lens: seq<nat>, e: seq<nat>, limit: nat, a: nat)
    requires |lens| == |counts| == |e| && a < limit && NearBy(counts, lens, e, limit, a)
    ensures Fibonacci(a + 1) * O.Cost(counts, lens)
         <= Fibonacci(a + 1) * O.Cost(counts, e) + (limit - 1 - a) * CountTotal(counts, |counts|)
  {
  }

  /** The dynamic code of the literals and lengths costs at most 8 / 13 bits a symbol more than the
      fixed one, and nothing more if there are fewer than 1597. */
  lemma LitNear(counts: seq<nat>, lens: seq<nat>)
    requires |counts| == |lens| == 288 && NearMinimum(counts, lens, 15)
    ensures 13 * O.Cost(counts, lens) <= 13 * O.Cost(counts, StaticLit()) + 8 * CountTotal(counts, 288)
    ensures CountTotal(counts, 288) < 1597 ==> O.Cost(counts, lens) <= O.Cost(counts, StaticLit())
  {
    SmallPowers();
    hide Fibonacci, CountTotal, O.Cost, NearMinimum, NearBy, Pow2, StaticLit, Serves;
    Pow2Nine();
    Fibonaccis();
    FixedServes(counts, Repeat(0, 32));
    NearByFixed(counts, lens, StaticLit(), 15, 6);
    NearByMeans(counts, lens, StaticLit(), 15, 6);
  }

  lemma DistNear(counts: seq<nat>, lens: seq<nat>)
    requires |counts| == |lens| == 32 && NearMinimum(counts, lens, 15)
    ensures 89 * O.Cost(counts, lens) <= 89 * O.Cost(counts, StaticDist()) + 4 * CountTotal(counts, 32)
    ensures CountTotal(counts, 32) < 1597 ==> O.Cost(counts, lens) <= O.Cost(counts, StaticDist())
  {
    hide Fibonacci, CountTotal, O.Cost, NearMinimum, NearBy, Pow2, StaticDist, Serves;
    Pow2Nine();
    Fibonaccis();
    FixedServes(Repeat(0, 288), counts);
    NearByFixed(counts, lens, StaticDist(), 15, 10);
    NearByMeans(counts, lens, StaticDist(), 15, 10);
  }

  lemma Pow2Nine()
    ensures Pow2(5) == 32 && Pow2(9) == 512
  {
    assert Pow2(4) == 16;
    assert Pow2(7) == 128;
  }

  /** A body in dynamic codes is at most one bit a token longer than in fixed codes, and no longer at
      all for fewer than 1596 tokens. */
  lemma DynamicBodySize(lit: seq<nat>, dist: seq<nat>, ks: seq<Token>)
    requires AllRecordable(ks) && |lit| == 288 && |dist| == 32
    requires AllCodable(Tables(lit, dist), ks) && AllCodable(StaticTables(), ks)
    requires NearMinimum(BodyCounts(ks), lit, 15) && NearMinimum(DistCounts(ks), dist, 15)
    ensures |BodyBits(Tables(lit, dist), ks)| <= |BodyBits(StaticTables(), ks)| + |ks| + 1
    ensures |ks| < 1596 ==> |BodyBits(Tables(lit, dist), ks)| <= |BodyBits(StaticTables(), ks)|
  {
    hide O.Cost, BodyBits, AllCodable, BodyCounts, DistCounts, Extras, NearMinimum, StaticLit, StaticDist, CountTotal;
    BodySize(Tables(lit, dist), ks);
    BodySize(StaticTables(), ks);
    BodyTotal(ks);
    LitNear(BodyCounts(ks), lit);
    DistNear(DistCounts(ks), dist);
  }

  // ---- the header

  lemma {:induction false} OpsSize(lens: seq<nat>, ops: seq<Op>)
    requires OpsCodable(lens, ops) && forall i :: 0 <= i < |lens| ==> lens[i] < 8
    ensures |OpsBits(lens, ops)| <= 14 * |ops|
  {
    hide BitsOf;
    if ops != [] { OpsSize(lens, ops[..|ops| - 1]); }
  }

  /** No header of a dynamic block is longer than 4551 bits. */
  lemma HeaderSize(h: Header)
    requires HeaderOk(h)
    ensures |HeaderBits(h)| <= 4551
  {
    hide OpsBits, OpsCodable, LenLensBits, SizesBits, Expandable, ExpandOps, OnlyFirst, Accepted, Feasible;
    OpsSize(h.lens, h.ops);
    assert |ExpandOps([], h.ops)| >= |h.ops|;
  }
}
