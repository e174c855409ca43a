/** TDEFL_OUT_BUF_SIZE is large enough for every block. */
module OutputBound {
  import opened Bytes
  import opened Bits
  import opened Canonical
  import opened Tokens
  import opened Reference
  import opened BlockFormat
  import opened BlockHeaders
  import opened LzBuffer
  import opened BlockCompressor

  /** Bits of the code buffer that a token takes, with its flag. */
  function Cost(k: Token): nat {
    if k.Literal? then 9 else 25
  }

  function Costs(ks: seq<Token>): nat {
    if ks == [] then 0 else Costs(ks[..|ks| - 1]) + Cost(ks[|ks| - 1])
  }

  lemma {:induction false} CostsConcat(a: seq<Token>, b: seq<Token>)
    ensures Costs(a + b) == Costs(a) + Costs(b)
    decreases |b|
  {
    if b == [] {
      assert a + b == a;
    } else {
      CostsConcat(a, b[..|b| - 1]);
      assert (a + b)[..|a + b| - 1] == a + b[..|b| - 1];
    }
  }

  lemma {:induction false} PayloadsCost(ks: seq<Token>)
    requires AllRecordable(ks)
    ensures 8 * |Payloads(ks)| + |ks| == Costs(ks)
  {
    if ks != [] {
      PayloadsCost(ks[1..]);
      assert [ks[0]] + ks[1..] == ks;
      CostsConcat([ks[0]], ks[1..]);
      assert [ks[0]][..0] == [];
    }
  }

  lemma {:induction false} CodesCost(ks: seq<Token>)
    requires AllRecordable(ks)
    ensures 8 * |Codes(ks)| >= Costs(ks)
    decreases |ks|
  {
    if ks == [] {
    } else if |ks| <= 8 {
      PayloadsCost(ks);
    } else {
      PayloadsCost(ks[..8]);
      CodesCost(ks[8..]);
      assert ks[..8] + ks[8..] == ks;
      CostsConcat(ks[..8], ks[8..]);
    }
  }

  /** At most 31 bits for a match and 9 for a literal. */
  lemma TokenCost(k: Token)
    requires Recordable(k) && Codable(StaticTables(), k)
    ensures |TokenBits(StaticTables(), k)| <= if k.Literal? then 9 else 31
  {
    hide LenSym, DistSym, LenExtra, DistExtra, Pow2;
    if k.Match? {
      LengthAlphabet(k.len - MIN_MATCH);
      DistanceAlphabet(k.dist - 1);
    }
  }

  /** Together with one more bit, 32 bits for a match and 10 for a literal. */
  lemma {:induction false} TokensCost(ks: seq<Token>)
    requires AllRecordable(ks) && AllCodable(StaticTables(), ks)
    ensures 25 * |TokensBits(StaticTables(), ks)| + 25 * |ks| <= 32 * Costs(ks)
  {
    hide TokenBits, StaticTables, Codable, Recordable;
    if ks != [] {
      TokensCost(ks[..|ks| - 1]);
      TokenCost(ks[|ks| - 1]);
    }
  }

  /** Every block, also with dynamic codes and limited code lengths, stays below 675,700 bits. */
  lemma BlockSize(head: BlockHead, ks: seq<Token>)
    requires AllRecordable(ks) && |Codes(ks)| <= CODE_BUF && BlockOk(head, ks) && Economical(head, ks)
    ensures |BlockBits(head, ks)| <= 675652
  {
    hide Codes, Costs, TokensBits, AllCodable;
    BitsFixed(ks);
    CodesCost(ks);
    TokensCost(ks);
  }

  lemma StoredSize(fin: bool, pos: nat, data: seq<byte>)
    requires |data| <= 32768
    ensures |StoredBits(fin, pos, data)| <= 42 + 8 * |data|
  {
    hide BitsOf;
  }
}
