/** Canonical Huffman codes (section 3.2.2 of RFC 1951): the numbers that both the compressor and
    the decompressor compute from a vector of code lengths, and why they form a prefix code.
    The proofs place symbol i on the interval [Start(i), Start(i) + Weight(len i)) of the 15-bit
    numbers: the intervals follow each other in canonical order, and a bit string begins with the
    code of i exactly when its first 15 bits fall in the interval of i. */
module Canonical {
  import opened Bits

  type Lengths = seq<nat>

  const MAX_LEN: nat := 15

  predicate WellFormed(lens: Lengths) {
    forall i :: 0 <= i < |lens| ==> lens[i] <= MAX_LEN
  }

  function Count(lens: Lengths, l: nat, n: nat): nat
    requires n <= |lens|
  {
    if n == 0 then 0 else Count(lens, l, n - 1) + if lens[n - 1] == l then 1 else 0
  }

  /** The first code of each length, by the recurrence of the RFC. */
  function FirstCode(lens: Lengths, l: nat): nat {
    if l <= 1 then 0 else 2 * (FirstCode(lens, l - 1) + Count(lens, l - 1, |lens|))
  }

  /** The code of symbol i: consecutive numbers within one length. */
  function CodeNumber(lens: Lengths, i: nat): nat
    requires i < |lens|
  {
    FirstCode(lens, lens[i]) + Count(lens, lens[i], i)
  }

  function Code(lens: Lengths, i: nat): (c: Bits)
    requires i < |lens|
    ensures |c| == lens[i]
  {
    MsbBits(CodeNumber(lens, i), lens[i])
  }

  // ---- intervals

  ghost function Weight(l: nat): nat {
    if 1 <= l <= MAX_LEN then Pow2(MAX_LEN - l) else 0
  }

  /** Symbol j lies before the cut (l, i) of the canonical order. */
  predicate Precedes(lens: Lengths, j: nat, l: nat, i: nat)
    requires j < |lens|
  {
    0 < lens[j] && (lens[j] < l || (lens[j] == l && j < i))
  }

  /** The weight of those among the first n symbols that lie before the cut (l, i). */
  ghost function Below(lens: Lengths, l: nat, i: nat, n: nat): nat
    requires n <= |lens|
  {
    if n == 0 then 0 else
      Below(lens, l, i, n - 1) + if Precedes(lens, n - 1, l, i) then Weight(lens[n - 1]) else 0
  }

  ghost function Start(lens: Lengths, i: nat): nat
    requires i < |lens|
  {
    Below(lens, lens[i], i, |lens|)
  }

  /** The Kraft sum, in units of 2^-15. */
  ghost function Kraft(lens: Lengths): nat {
    Below(lens, MAX_LEN + 1, 0, |lens|)
  }

  /** The lengths leave room for a prefix code. */
  ghost predicate Feasible(lens: Lengths) {
    WellFormed(lens) && Kraft(lens) <= Pow2(MAX_LEN)
  }

  /** The lengths use the whole code space. */
  ghost predicate Complete(lens: Lengths) {
    WellFormed(lens) && Kraft(lens) == Pow2(MAX_LEN)
  }

  lemma {:induction false} BelowOfFirst(lens: Lengths, l: nat, i: nat, n: nat)
    requires n <= |lens| && 1 <= l <= MAX_LEN
    ensures Below(lens, l, i, n) == Below(lens, l, 0, n) + Mul(Count(lens, l, if i < n then i else n), Weight(l))
  {
    if n > 0 { BelowOfFirst(lens, l, i, n - 1); }
  }

  lemma {:induction false} BelowNextLength(lens: Lengths, l: nat, n: nat)
    requires n <= |lens| && 1 <= l <= MAX_LEN
    ensures Below(lens, l + 1, 0, n) == Below(lens, l, 0, n) + Mul(Count(lens, l, n), Weight(l))
  {
    if n > 0 { BelowNextLength(lens, l, n - 1); }
  }

  lemma {:induction false} BelowNothing(lens: Lengths, n: nat)
    requires n <= |lens|
    ensures Below(lens, 1, 0, n) == 0
  {
    if n > 0 { BelowNothing(lens, n - 1); }
  }

  lemma {:induction false} FirstCodeStart(lens: Lengths, l: nat)
    requires 1 <= l <= MAX_LEN
    ensures Mul(FirstCode(lens, l), Weight(l)) == Below(lens, l, 0, |lens|)
  {
    if l == 1 {
      BelowNothing(lens, |lens|);
    } else {
      FirstCodeStart(lens, l - 1);
      BelowNextLength(lens, l - 1, |lens|);
      var f, c, w := FirstCode(lens, l - 1), Count(lens, l - 1, |lens|), Weight(l);
      assert Weight(l - 1) == 2 * w;
      MulAdd(f, c, 2 * w);
      MulDouble(f + c, w);
    }
  }

  lemma CodeStart(lens: Lengths, i: nat)
    requires WellFormed(lens) && i < |lens| && lens[i] > 0
    ensures Start(lens, i) == Mul(CodeNumber(lens, i), Weight(lens[i]))
  {
    var l := lens[i];
    FirstCodeStart(lens, l);
    BelowOfFirst(lens, l, i, |lens|);
    MulAdd(FirstCode(lens, l), Count(lens, l, i), Weight(l));
  }

  /** A symbol's interval ends no later than any cut behind it. */
  lemma {:induction false} EndsBefore(lens: Lengths, k: nat, l: nat, i: nat, n: nat)
    requires n <= |lens| && k < |lens| && Precedes(lens, k, l, i)
    ensures Below(lens, lens[k], k, n) + (if k < n then Weight(lens[k]) else 0) <= Below(lens, l, i, n)
  {
    if n > 0 { EndsBefore(lens, k, l, i, n - 1); }
  }

  lemma Disjoint(lens: Lengths, i: nat, k: nat)
    requires i < |lens| && k < |lens| && i != k && lens[i] > 0 && lens[k] > 0
    ensures Start(lens, i) + Weight(lens[i]) <= Start(lens, k) || Start(lens, k) + Weight(lens[k]) <= Start(lens, i)
  {
    if Precedes(lens, i, lens[k], k) {
      EndsBefore(lens, i, lens[k], k, |lens|);
    } else {
      EndsBefore(lens, k, lens[i], i, |lens|);
    }
  }

  lemma CodeFits(lens: Lengths, i: nat)
    requires Feasible(lens) && i < |lens| && lens[i] > 0
    ensures CodeNumber(lens, i) < Pow2(lens[i])
  {
    var l := lens[i];
    CodeStart(lens, i);
    EndsBefore(lens, i, MAX_LEN + 1, 0, |lens|);
    MulPow2(l, MAX_LEN - l);
    if CodeNumber(lens, i) >= Pow2(l) {
      MulMonotone(Pow2(l), CodeNumber(lens, i), Weight(l));
      assert false;
    }
  }

  /** A bit string begins with the code of i exactly when its number lies in the interval of i. */
  lemma CodeIsInterval(lens: Lengths, i: nat, b: Bits)
    requires Feasible(lens) && i < |lens| && lens[i] > 0 && |b| == MAX_LEN
    ensures Code(lens, i) <= b <==> Start(lens, i) <= MsbValue(b) < Start(lens, i) + Weight(lens[i])
  {
    var l := lens[i];
    var c, w, v := CodeNumber(lens, i), Weight(l), MsbValue(b);
    CodeStart(lens, i);
    CodeFits(lens, i);
    MsbPrefix(b, l);
    MsbValueOfMsbBits(c, l);
    MsbBitsOfMsbValue(b[..l]);
    assert Code(lens, i) <= b <==> b[..l] == Code(lens, i);
    assert b[..l] == Code(lens, i) <==> v / w == c;
    QuotientInterval(v, w, c);
  }

  function Zeros(n: nat): (b: Bits)
    ensures |b| == n
  {
    if n == 0 then [] else [false] + Zeros(n - 1)
  }

  lemma PrefixFree(lens: Lengths, i: nat, k: nat)
    requires Feasible(lens) && i < |lens| && k < |lens| && lens[i] > 0 && lens[k] > 0
    requires Code(lens, i) <= Code(lens, k)
    ensures i == k
  {
    if i != k {
      var b := Code(lens, k) + Zeros(MAX_LEN - lens[k]);
      CodeIsInterval(lens, i, b);
      CodeIsInterval(lens, k, b);
      Disjoint(lens, i, k);
    }
  }

  /** At most one code starts a bit string. */
  lemma UniqueDecoding(lens: Lengths, i: nat, k: nat, b: Bits)
    requires Feasible(lens) && i < |lens| && k < |lens| && lens[i] > 0 && lens[k] > 0
    requires Code(lens, i) <= b && Code(lens, k) <= b
    ensures i == k
  {
    if lens[i] <= lens[k] {
      assert Code(lens, i) <= Code(lens, k);
      PrefixFree(lens, i, k);
    } else {
      assert Code(lens, k) <= Code(lens, i);
      PrefixFree(lens, k, i);
    }
  }

  lemma {:induction false} BelowStep(lens: Lengths, l: nat, i: nat, n: nat)
    requires n <= |lens| && i < |lens| && l > 0
    ensures Below(lens, l, i + 1, n) == Below(lens, l, i, n) + if i < n && lens[i] == l then Weight(l) else 0
  {
    if n > 0 { BelowStep(lens, l, i, n - 1); }
  }

  lemma {:induction false} BelowWrap(lens: Lengths, l: nat, n: nat)
    requires n <= |lens|
    ensures Below(lens, l, |lens|, n) == Below(lens, l + 1, 0, n)
  {
    if n > 0 { BelowWrap(lens, l, n - 1); }
  }

  /** Walking back from a cut finds the interval that holds a given number below it. */
  lemma {:induction false} FindInterval(lens: Lengths, v: nat, l: nat, i: nat) returns (k: nat)
    requires l > 0 && i <= |lens| && v < Below(lens, l, i, |lens|)
    ensures k < |lens| && lens[k] > 0 && Start(lens, k) <= v < Start(lens, k) + Weight(lens[k])
    decreases l, i
  {
    if i == 0 {
      BelowNothing(lens, |lens|);
      BelowWrap(lens, l - 1, |lens|);
      k := FindInterval(lens, v, l - 1, |lens|);
    } else {
      BelowStep(lens, l, i - 1, |lens|);
      if Below(lens, l, i - 1, |lens|) <= v {
        k := i - 1;
      } else {
        k := FindInterval(lens, v, l, i - 1);
      }
    }
  }

  /** Under a complete code every bit string of 15 bits starts with a code. */
  lemma CompleteDecodes(lens: Lengths, b: Bits) returns (k: nat)
    requires Complete(lens) && |b| == MAX_LEN
    ensures k < |lens| && lens[k] > 0 && Code(lens, k) <= b
  {
    MsbBound(b);
    k := FindInterval(lens, MsbValue(b), MAX_LEN + 1, 0);
    CodeIsInterval(lens, k, b);
  }
}
