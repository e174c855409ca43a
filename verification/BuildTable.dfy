/** The table-building loop of tinfl_decompress, in place on the lookup and tree arrays. */
module BuildTable {
  import opened Bytes
  import opened Bits
  import opened Canonical
  import opened DecodeTrie
  import opened InflateTable

  ghost function NumUsed(lens: Lengths, n: nat): nat
    requires n <= |lens|
  {
    if n == 0 then 0 else NumUsed(lens, n - 1) + if lens[n - 1] > 0 then 1 else 0
  }

  /** How many of the first n symbols have a length in 1..l. */
  ghost function NumUpTo(lens: Lengths, l: nat, n: nat): nat
    requires n <= |lens|
  {
    if n == 0 then 0 else NumUpTo(lens, l, n - 1) + if 0 < lens[n - 1] <= l then 1 else 0
  }

  lemma {:induction false} NumUpToNext(lens: Lengths, l: nat, n: nat)
    requires n <= |lens|
    ensures NumUpTo(lens, l + 1, n) == NumUpTo(lens, l, n) + Count(lens, l + 1, n)
  {
    if n > 0 { NumUpToNext(lens, l, n - 1); }
  }

  lemma {:induction false} NumUpToEnds(lens: Lengths, n: nat)
    requires n <= |lens|
    ensures NumUpTo(lens, 0, n) == 0
    ensures WellFormed(lens) ==> NumUpTo(lens, MAX_LEN, n) == NumUsed(lens, n)
  {
    if n > 0 { NumUpToEnds(lens, n - 1); }
  }

  lemma {:induction false} UsedAtLeast(lens: Lengths, n: nat, i: nat, j: nat)
    requires i <= j < n <= |lens| && lens[i] > 0 && lens[j] > 0
    ensures NumUsed(lens, n) >= if i == j then 1 else 2
  {
    if j == n - 1 {
      if i < j { UsedAtLeast(lens, n - 1, i, i); }
    } else {
      UsedAtLeast(lens, n - 1, i, j);
    }
  }

  lemma {:induction false} UsedWitness(lens: Lengths, n: nat) returns (i: nat)
    requires n <= |lens| && NumUsed(lens, n) >= 1
    ensures i < n && lens[i] > 0
  {
    if lens[n - 1] > 0 { i := n - 1; } else { i := UsedWitness(lens, n - 1); }
  }

  lemma {:induction false} UsedTwoWitnesses(lens: Lengths, n: nat) returns (i: nat, j: nat)
    requires n <= |lens| && NumUsed(lens, n) >= 2
    ensures i < j < n && lens[i] > 0 && lens[j] > 0
  {
    if lens[n - 1] > 0 {
      j := n - 1;
      i := UsedWitness(lens, n - 1);
    } else {
      i, j := UsedTwoWitnesses(lens, n - 1);
    }
  }

  lemma LonelyMeansOne(lens: Lengths)
    ensures Lonely(lens) <==> NumUsed(lens, |lens|) <= 1
  {
    if NumUsed(lens, |lens|) >= 2 {
      var i, j := UsedTwoWitnesses(lens, |lens|);
    } else {
      forall i, j | 0 <= i < |lens| && 0 <= j < |lens| && lens[i] > 0 && lens[j] > 0
        ensures i == j
      {
        UsedAtLeast(lens, |lens|, if i < j then i else j, if i < j then j else i);
      }
    }
  }

  /** The running total of the construction is twice the Kraft sum. */
  lemma TotalIsKraft(lens: Lengths)
    requires WellFormed(lens)
    ensures FirstCode(lens, MAX_LEN + 1) == 2 * Kraft(lens)
    ensures FirstCode(lens, MAX_LEN + 1) == 65536 <==> Complete(lens)
  {
    FirstCodeStart(lens, MAX_LEN);
    BelowNextLength(lens, MAX_LEN, |lens|);
    MulIsProduct(FirstCode(lens, MAX_LEN), 1);
    MulIsProduct(Count(lens, MAX_LEN, |lens|), 1);
    assert Pow2(10) == 1024;
    assert Pow2(15) == 32768;
  }

  lemma {:induction false} LonelyBelow(lens: Lengths, n: nat)
    requires n <= |lens| && WellFormed(lens)
    ensures Below(lens, MAX_LEN + 1, 0, n) <= Mul(NumUsed(lens, n), Pow2(MAX_LEN))
  {
    if n > 0 {
      LonelyBelow(lens, n - 1);
      if lens[n - 1] > 0 {
        hide Pow2;
        Pow2Monotone(MAX_LEN - lens[n - 1], MAX_LEN);
      }
    }
  }

  /** Both kinds of vector the construction accepts leave room for a prefix code. */
  lemma AcceptedIsFeasible(lens: Lengths)
    requires WellFormed(lens) && (Complete(lens) || Lonely(lens))
    ensures Feasible(lens)
  {
    if Lonely(lens) {
      LonelyMeansOne(lens);
      LonelyBelow(lens, |lens|);
      MulMonotone(NumUsed(lens, |lens|), 1, Pow2(MAX_LEN));
    }
  }

  /** The loop that reverses a code. */
  method ReverseBits(code: nat, size: nat) returns (rev: nat)
    ensures rev == ReverseCode(code, size)
  {
    rev := 0;
    var c := code;
    var l := 0;
    while l < size
      invariant l <= size
      invariant c == code / Pow2(l)
      invariant rev == ReverseCode(code, l)
    {
      BitsOfSnoc(code, l);
      assert BitsOf(code, l + 1)[..l] == BitsOf(code, l);
      rev := 2 * rev + c % 2;
      Halve(code, Pow2(l));
      c := c / 2;
      l := l + 1;
    }
  }

  lemma RevIsCode(lens: Lengths, i: nat)
    requires Feasible(lens) && i < |lens| && lens[i] > 0
    ensures ReverseCode(CodeNumber(lens, i), lens[i]) == ValueOf(Code(lens, i)) < Pow2(lens[i])
    ensures BitsOf(ReverseCode(CodeNumber(lens, i), lens[i]), lens[i]) == Code(lens, i)
  {
    var c, l := CodeNumber(lens, i), lens[i];
    ReversedCodeBits(c, l);
    ValueOfBitsOf(ReverseCode(c, l), l);
  }
}
