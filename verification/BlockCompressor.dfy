/** tdefl_compress_block: whole blocks, and the round trip through the decompressor's machine. */
module BlockCompressor {
  import opened Bytes
  import opened Bits
  import opened Canonical
  import opened InflateTable
  import opened BuildTable
  import opened Tokens
  import opened Reference
  import opened BlockFormat
  import opened BlockHeaders
  import opened DynamicBlock
  import opened BitWriter
  import opened LzBuffer
  import opened HuffmanCodes
  import opened Trimming
  import opened BlockWriter
  import opened BlockCost
  import opened LzCodeWriter

  datatype BlockHead = Fixed | Dynamic(h: Header)

  ghost predicate BlockOk(head: BlockHead, ks: seq<Token>) {
    match head
    case Fixed => AllRecordable(ks)
    case Dynamic(h) => HeaderOk(h) && AllCodable(h.tables, ks) && h.tables.lit[256] > 0
  }

  lemma StaticAllCodable(ks: seq<Token>)
    requires AllRecordable(ks)
    ensures AllCodable(StaticTables(), ks)
  {
    hide Codable, StaticTables;
    forall i | 0 <= i < |ks|
      ensures Codable(StaticTables(), ks[i])
    {
      StaticCodable(ks[i]);
    }
  }

  /** A block behind its final flag. */
  ghost function BlockBits(head: BlockHead, ks: seq<Token>): Bits
    requires BlockOk(head, ks)
  {
    match head
    case Fixed => StaticAllCodable(ks); BitsOf(1, 2) + BodyBits(StaticTables(), ks)
    case Dynamic(h) => BitsOf(2, 2) + HeaderBits(h) + BodyBits(h.tables, ks)
  }

  /** The tables built from the counts of the tokens have codes for them. */
  lemma CountedCodable(ks: seq<Token>, lit: seq<nat>, dist: seq<nat>)
    requires AllRecordable(ks)
    requires TableFor(LitCounts(ks)[256 := 1], lit, 15) && TableFor(DistCounts(ks), dist, 15)
    ensures AllCodable(Tables(lit, dist), ks) && |lit| == 288 && lit[256] > 0
  {
    hide Complete, Lonely, LitCounts, DistCounts, LenSym, DistSym;
    LitCountsMean(ks);
    DistCountsMean(ks);
    forall i | 0 <= i < |ks|
      ensures Codable(Tables(lit, dist), ks[i])
    {
      assert LitCounts(ks)[LitUse(ks[i])] > 0;
      if ks[i].Match? { assert DistCounts(ks)[DistUse(ks[i])] > 0; }
    }
  }

  /** The counts of a code buffer are fit for a block. */
  lemma CountsFit(ks: seq<Token>)
    requires AllRecordable(ks) && |Codes(ks)| <= CODE_BUF
    ensures BlockCounts(LitCounts(ks), DistCounts(ks))
  {
    hide LitCounts, DistCounts, CountTotal, Codes;
    LitCountsMean(ks);
    DistCountsMean(ks);
    CodesLength(ks);
    NoEnd(ks);
  }

  lemma DynamicOk(h: Header, lit: Codebook, dist: Codebook, ks: seq<Token>)
    requires HeaderFor(h, lit, dist) && AllRecordable(ks)
    requires TableFor(LitCounts(ks)[256 := 1], lit.sizes, 15) && TableFor(DistCounts(ks), dist.sizes, 15)
    ensures AllCodable(Tables(lit.sizes, dist.sizes), ks) && HasCode(lit, 256)
    ensures BlockOk(Dynamic(h), ks)
    ensures BlockBits(Dynamic(h), ks) == BitsOf(2, 2) + HeaderBits(h) + BodyBits(Tables(lit.sizes, dist.sizes), ks)
  {
    hide TableFor, HeaderBits, BodyBits, AllCodable, ZeroFrom, BitsOf;
    CountedCodable(ks, lit.sizes, dist.sizes);
    BodyTrim(Tables(lit.sizes, dist.sizes), h.nlit, h.ndist, ks);
    BitsDynamic(h, ks);
  }

  lemma BitsDynamic(h: Header, ks: seq<Token>)
    requires BlockOk(Dynamic(h), ks)
    ensures BlockBits(Dynamic(h), ks) == BitsOf(2, 2) + HeaderBits(h) + BodyBits(h.tables, ks)
  {
  }

  lemma BitsFixed(ks: seq<Token>)
    requires BlockOk(Fixed, ks)
    ensures AllCodable(StaticTables(), ks) && BlockBits(Fixed, ks) == BitsOf(1, 2) + BodyBits(StaticTables(), ks)
  {
    StaticAllCodable(ks);
  }

  /** A block is at most one bit a token longer than in fixed codes, besides its header; without the
      header it is no longer at all for fewer than 1596 tokens. */
  ghost predicate Economical(head: BlockHead, ks: seq<Token>)
    requires BlockOk(head, ks) && AllRecordable(ks)
  {
    && |BlockBits(head, ks)| <= |BlockBits(Fixed, ks)| + 4552 + |ks|
    && (|ks| < 1596 ==> |BlockBits(head, ks)| <= |BlockBits(Fixed, ks)| + 4551)
  }

  lemma FixedEconomical(ks: seq<Token>)
    requires AllRecordable(ks)
    ensures BlockOk(Fixed, ks) && Economical(Fixed, ks)
  {
    hide BlockBits;
  }

  lemma DynamicEconomical(h: Header, lit: Codebook, dist: Codebook, ks: seq<Token>)
    requires BlockOk(Dynamic(h), ks) && AllRecordable(ks) && NearTables(LitCounts(ks), DistCounts(ks), lit, dist)
    requires AllCodable(Tables(lit.sizes, dist.sizes), ks) && HasCode(lit, 256)
    requires BlockBits(Dynamic(h), ks) == BitsOf(2, 2) + HeaderBits(h) + BodyBits(Tables(lit.sizes, dist.sizes), ks)
    ensures Economical(Dynamic(h), ks)
  {
    hide BlockBits, HeaderOk, NearMinimum, AllCodable, BodyBits, HeaderBits, DistCounts, LitCounts, StaticTables,
         BitsOf;
    DynamicParts(h, ks);
    HeaderSize(h);
    BitsFixed(ks);
    DynamicBodySize(lit.sizes, dist.sizes, ks);
  }

  lemma DynamicParts(h: Header, ks: seq<Token>)
    requires BlockOk(Dynamic(h), ks)
    ensures HeaderOk(h) && h.nlit >= 257 && h.ndist >= 1 && 4 <= h.nlen <= 19 && |h.lens| == 19
    ensures OpsCodable(h.lens, h.ops) && |BitsOf(1, 2)| == |BitsOf(2, 2)|
  {
  }

  lemma EndOfStatic(b: Codebook)
    requires b.sizes == StaticLit()
    ensures HasCode(b, 256)
  {
  }

  /** tdefl_compress_block */
  method CompressBlock(w: Writer, codeBuf: array<byte>, end: nat, litCount: seq<nat>, distCount: seq<nat>,
      staticBlock: bool,
                       ghost ks: seq<Token>)
    returns (ok: bool, ghost head: BlockHead)
    requires w.Valid() && codeBuf != w.buf && end <= codeBuf.Length && end <= CODE_BUF
    requires AllRecordable(ks) && codeBuf[..end] == Codes(ks) && litCount == LitCounts(ks)
             && distCount == DistCounts(ks)
    modifies w`cur, w`written, w`bitBuffer, w`bitsIn, w.buf
    ensures w.Valid() && BlockOk(head, ks) && w.Stream() == old(w.Stream()) + BlockBits(head, ks)
    ensures old(w.written) <= w.written && (ok <==> w.cur < w.end) && (staticBlock <==> head.Fixed?)
    ensures Economical(head, ks) && (head.Dynamic? ==> Compact(head.h))
  {
    hide BookOk, HasCode, Codes, LitCounts, DistCounts, TableFor, HeaderFor, BlockBits, BlockCounts, AllCodable,
         HeaderBits, BodyBits,
         StaticLit, StaticDist, BitsOf, w.Valid, w.Stream, BlockOk, Economical, NearTables, Compact;
    var lit, dist;
    ghost var s := w.Stream();
    ghost var codes := codeBuf[..end];
    if staticBlock {
      lit, dist := StartStaticBlock(w);
      head := Fixed;
      FixedEconomical(ks);
      BitsFixed(ks);
      EndOfStatic(lit);
    } else {
      ghost var h;
      CountsFit(ks);
      lit, dist, h := StartDynamicBlock(w, litCount, distCount);
      head := Dynamic(h);
      DynamicOk(h, lit, dist, ks);
      DynamicEconomical(h, lit, dist, ks);
    }
    assert codeBuf[..end] == codes;
    ghost var mid := w.Stream();
    BookHasEnd(lit);
    ok := CompressLzCodes(w, codeBuf, end, lit, dist, ks);
    ghost var body := BodyBits(Tables(lit.sizes, dist.sizes), ks);
    Gather(s, head, mid, body, ks);
  }

  lemma BookHasEnd(b: Codebook)
    requires HasCode(b, 256)
    ensures |b.sizes| > 256
  {
  }

  lemma Gather(s: Bits, head: BlockHead, mid: Bits, body: Bits, ks: seq<Token>)
    requires BlockOk(head, ks)
    requires match head
             case Fixed => mid == s + BitsOf(1, 2) && BlockBits(head, ks) == BitsOf(1, 2) + body
             case Dynamic(h) =>
               mid == s + BitsOf(2, 2) + HeaderBits(h) && BlockBits(head, ks) == BitsOf(2, 2) + HeaderBits(h) + body
    ensures mid + body == s + BlockBits(head, ks)
  {
    hide HeaderBits, BitsOf, BlockBits;
    match head
    case Fixed =>
      assert s + BitsOf(1, 2) + body == s + (BitsOf(1, 2) + body);
    case Dynamic(h) =>
      assert s + BitsOf(2, 2) + HeaderBits(h) + body == s + (BitsOf(2, 2) + HeaderBits(h) + body);
  }

  // ---- round trip

  lemma AcceptedFeasible(lens: Lengths)
    requires Accepted(lens)
    ensures Feasible(lens)
  {
    AcceptedIsFeasible(lens);
  }

  lemma UsableDynamic(h: Header)
    requires HeaderOk(h)
    ensures UsableTables(h.tables)
  {
    hide Accepted, Feasible;
    AcceptedFeasible(h.tables.lit);
    AcceptedFeasible(h.tables.dist);
  }

  lemma UsableStatic()
    ensures UsableTables(StaticTables()) && |StaticTables().lit| > 256 && StaticTables().lit[256] > 0
  {
    hide Pow2, Below;
    StaticComplete();
  }

  lemma KindIs(fin: bool, kind: nat)
    ensures KindBits(fin, kind) == [fin] + BitsOf(kind, 2)
  {
  }

  lemma FixedRoundTrip(cfg: Config, bits: Bits, s: State, fin: bool, ks: seq<Token>)
    requires s.pc.Head? && BlockOk(Fixed, ks) && ValidTokens(ks, |s.out|)
    requires At(bits, s.pos, [fin] + BlockBits(Fixed, ks))
    ensures Reaches(cfg, bits, s,
            NextBlock(cfg, fin, s.(pos := s.pos + 1 + |BlockBits(Fixed, ks)|, out := Expand(s.out, ks))))
  {
    hide Reaches, NextBlock, At, BlockBits, BodyBits, KindBits, BitsOf, StaticTables, UsableTables, AllCodable,
         Expand, ValidTokens, AllRecordable;
    BitsFixed(ks);
    KindIs(fin, 1);
    UsableStatic();
    var body, t := BodyBits(StaticTables(), ks), StaticTables();
    assert [fin] + (BitsOf(1, 2) + body) == ([fin] + BitsOf(1, 2)) + body;
    AtSplit(bits, s.pos, KindBits(fin, 1), body);
    RunStaticHead(cfg, bits, s, fin);
    var s1 := s.(pc := Symbol(fin, t), pos := s.pos + 3);
    RunBody(cfg, bits, s1, ks);
    var s2 := s1.(pos := s1.pos + |body|, out := Expand(s.out, ks));
    NextBlockFields(cfg, fin, s.(out := s2.out), s2.pos, s1.pc);
    ReachesTrans(cfg, bits, s, s1, NextBlock(cfg, fin, s2));
  }

  lemma DynamicRoundTrip(cfg: Config, bits: Bits, s: State, fin: bool, h: Header, ks: seq<Token>)
    requires s.pc.Head? && BlockOk(Dynamic(h), ks) && ValidTokens(ks, |s.out|)
    requires At(bits, s.pos, [fin] + BlockBits(Dynamic(h), ks))
    ensures Reaches(cfg, bits, s,
            NextBlock(cfg, fin, s.(pos := s.pos + 1 + |BlockBits(Dynamic(h), ks)|, out := Expand(s.out, ks))))
  {
    hide Reaches, NextBlock, At, BlockBits, BodyBits, KindBits, BitsOf, HeaderBits, HeaderOk, UsableTables,
         AllCodable, Expand, ValidTokens;
    BitsDynamic(h, ks);
    KindIs(fin, 2);
    HeaderHas(h);
    var body, head := BodyBits(h.tables, ks), HeaderBits(h);
    assert [fin] + (BitsOf(2, 2) + head + body) == (([fin] + BitsOf(2, 2)) + head) + body;
    AtSplit(bits, s.pos, KindBits(fin, 2) + head, body);
    RunDynamicHead(cfg, bits, s, fin, h);
    UsableDynamic(h);
    var s1 := s.(pc := Symbol(fin, h.tables), pos := s.pos + 3 + |head|);
    RunBody(cfg, bits, s1, ks);
    var s2 := s1.(pos := s1.pos + |body|, out := Expand(s.out, ks));
    NextBlockFields(cfg, fin, s.(out := s2.out), s2.pos, s1.pc);
    ReachesTrans(cfg, bits, s, s1, NextBlock(cfg, fin, s2));
  }

  lemma HeaderHas(h: Header)
    requires HeaderOk(h)
    ensures h.nlit >= 257 && h.ndist >= 1 && 4 <= h.nlen <= 19 && |h.lens| == 19 && OpsCodable(h.lens, h.ops)
            && |h.tables.lit| > 256
  {
  }

  /** The bits of a block, static or dynamic, decode to the expansion of its tokens, and decoding goes
      on exactly behind the end-of-block code. */
  lemma BlockRoundTrip(cfg: Config, bits: Bits, s: State, fin: bool, head: BlockHead, ks: seq<Token>)
    requires s.pc.Head? && BlockOk(head, ks) && ValidTokens(ks, |s.out|)
    requires At(bits, s.pos, [fin] + BlockBits(head, ks))
    ensures Reaches(cfg, bits, s,
            NextBlock(cfg, fin, s.(pos := s.pos + 1 + |BlockBits(head, ks)|, out := Expand(s.out, ks))))
  {
    hide *;
    match head
    case Fixed => FixedRoundTrip(cfg, bits, s, fin, ks);
    case Dynamic(h) => DynamicRoundTrip(cfg, bits, s, fin, h, ks);
  }
}
