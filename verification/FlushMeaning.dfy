/** What a flush adds to the stream: a block and what follows it, told of the whole stream and of the part
    since the last full flush alone. */
module FlushMeaning {
  import opened Bytes
  import opened Bits
  import opened Tokens
  import opened Reference
  import opened BlockFormat
  import opened BlockHeaders
  import opened LzBuffer
  import opened BlockCompressor
  import opened LazyParse
  import opened StreamMeaning

  lemma LeadsSync(zlib: bool, stream: Bits, out: seq<byte>)
    requires Encodes(zlib, stream, out)
    ensures Encodes(zlib, stream + StoredBits(false, |stream|, []), out)
  {
    hide Leads, StoredBits;
    LeadsStored(zlib, stream, out, false, []);
    var x := StoredBits(false, |stream|, []);
    NotFinal(zlib, |stream| + |x|, out + []);
    assert out + [] == out;
  }

  lemma LeadsPadded(zlib: bool, stream: Bits, out: seq<byte>)
    requires Leads(zlib, stream, After(zlib, true, |stream|, out))
    ensures var s := stream + Padding(|stream|);
            Leads(zlib, s, State(if zlib then Trailer([]) else Done([]), |s|, out))
  {
    hide Leads, After;
    Final(zlib, |stream|, out);
    LeadsMore(zlib, stream, Padding(|stream|), After(zlib, true, |stream|, out));
  }

  /** The tokens of a block expand to the source bytes it covers. */
  lemma LeadsParsed(zlib: bool, pre: Bits, src: seq<byte>, dictPos: nat, total: nat, ks: seq<Token>, fin: bool,
      head: BlockHead)
    requires dictPos <= |src| && Encodes(zlib, pre, src[..dictPos]) && BlockOk(head, ks)
             && Emitted(src, dictPos, total, ks)
    ensures var s := pre + [fin] + BlockBits(head, ks); Leads(zlib, s, After(zlib, fin, |s|, src[..dictPos + total]))
  {
    hide Leads, After, BlockOk, BlockBits, Encodes, ValidTokens, Expand;
    LeadsBlock(zlib, pre, src[..dictPos], fin, head, ks);
    assert pre + ([fin] + BlockBits(head, ks)) == pre + [fin] + BlockBits(head, ks);
  }

  lemma LeadsRaw(zlib: bool, pre: Bits, src: seq<byte>, dictPos: nat, total: nat, fin: bool)
    requires dictPos + total <= |src| && total <= 65535 && Encodes(zlib, pre, src[..dictPos])
    ensures var s := pre + StoredBits(fin, |pre|, src[dictPos..dictPos + total]);
            Leads(zlib, s, After(zlib, fin, |s|, src[..dictPos + total]))
  {
    hide Leads, After, StoredBits, Encodes;
    LeadsStored(zlib, pre, src[..dictPos], fin, src[dictPos..dictPos + total]);
    assert src[..dictPos] + src[dictPos..dictPos + total] == src[..dictPos + total];
  }

  // ---- a block, whatever precedes it

  datatype BlockKind = RawBlock | Coded(head: BlockHead)

  ghost predicate KindOk(kind: BlockKind, ks: seq<Token>, total: nat) {
    match kind
    case RawBlock => total <= 65535
    case Coded(head) => BlockOk(head, ks)
  }

  /** The block, which starts at position pos. */
  ghost function BlockText(kind: BlockKind, fin: bool, pos: nat, data: seq<byte>, ks: seq<Token>): Bits
    requires KindOk(kind, ks, |data|)
  {
    match kind
    case RawBlock => StoredBits(fin, pos, data)
    case Coded(head) => [fin] + BlockBits(head, ks)
  }

  /** A block appends the source bytes that it covers. */
  lemma BlockMeans(zlib: bool, pre: Bits, src: seq<byte>, dictPos: nat, total: nat, ks: seq<Token>, fin: bool,
                   kind: BlockKind)
    requires dictPos <= |src| && Encodes(zlib, pre, src[..dictPos]) && Emitted(src, dictPos, total, ks)
    requires KindOk(kind, ks, total)
    ensures dictPos + total <= |src|
    ensures var s := pre + BlockText(kind, fin, |pre|, src[dictPos..dictPos + total], ks);
            Leads(zlib, s, After(zlib, fin, |s|, src[..dictPos + total]))
  {
    hide Leads, After, BlockOk, BlockBits, Encodes, ValidTokens, Expand, StoredBits;
    match kind
    case RawBlock => LeadsRaw(zlib, pre, src, dictPos, total, fin);
    case Coded(head) =>
      LeadsParsed(zlib, pre, src, dictPos, total, ks, fin, head);
      assert pre + ([fin] + BlockBits(head, ks)) == pre + [fin] + BlockBits(head, ks);
  }

  /** A block looks the same at positions that are whole bytes apart. */
  lemma BlockTextShift(kind: BlockKind, fin: bool, p: nat, q: nat, data: seq<byte>, ks: seq<Token>)
    requires KindOk(kind, ks, |data|) && p % 8 == q % 8
    ensures BlockText(kind, fin, p, data, ks) == BlockText(kind, fin, q, data, ks)
  {
    hide BlockBits, BitsOf, ByteBits;
    if kind.RawBlock? { PaddingShift(p + 3, q + 3); }
  }

  lemma PaddingShift(p: nat, q: nat)
    requires p % 8 == q % 8
    ensures Padding(p) == Padding(q)
  {
  }

  /** The bits of the stream from byte n on. */
  function Behind(stream: Bits, n: nat): Bits
    requires 8 * n <= |stream|
  {
    stream[8 * n..]
  }

  lemma BehindMore(stream: Bits, n: nat, x: Bits)
    requires 8 * n <= |stream|
    ensures 8 * n <= |stream + x| && Behind(stream + x, n) == Behind(stream, n) + x
    ensures |Behind(stream, n)| % 8 == |stream| % 8
  {
  }

  /** The same told of the source from h on: since then nothing refers to what lies before. */
  lemma BlockMeansSince(pre: Bits, n: nat, src: seq<byte>, h: nat, dictPos: nat, total: nat, ks: seq<Token>, fin: bool,
                        kind: BlockKind)
    requires 8 * n <= |pre| && h <= dictPos <= |src| && Encodes(false, Behind(pre, n), src[h..dictPos])
    requires Emitted(src[h..], dictPos - h, total, ks) && KindOk(kind, ks, total)
    ensures dictPos + total <= |src|
    ensures var s := pre + BlockText(kind, fin, |pre|, src[dictPos..dictPos + total], ks);
            8 * n <= |s| && Leads(false, Behind(s, n), After(false, fin, |Behind(s, n)|, src[h..dictPos + total]))
  {
    hide Leads, After, BlockText, KindOk, Encodes, ValidTokens, Expand;
    var rest, tail := Behind(pre, n), src[h..];
    assert tail[..dictPos - h] == src[h..dictPos];
    BlockMeans(false, rest, tail, dictPos - h, total, ks, fin, kind);
    assert tail[..dictPos - h + total] == src[h..dictPos + total];
    assert tail[dictPos - h..dictPos - h + total] == src[dictPos..dictPos + total];
    var x := BlockText(kind, fin, |pre|, src[dictPos..dictPos + total], ks);
    BehindMore(pre, n, x);
    BlockTextShift(kind, fin, |pre|, |rest|, src[dictPos..dictPos + total], ks);
  }

  // ---- what follows a block

  /** The stream is over, and what was in front of its trailer stands for out without any wrapper. */
  ghost predicate Ends(stream: Bits, out: seq<byte>) {
    exists p: nat :: Leads(false, stream, State(Done([]), p, out))
  }

  /** A flush marker behind the block. */
  lemma SyncSince(mid: Bits, n: nat, out: seq<byte>)
    requires 8 * n <= |mid| && Leads(false, Behind(mid, n), After(false, false, |Behind(mid, n)|, out))
    ensures var s := mid + StoredBits(false, |mid|, []);
            8 * n <= |s| && Encodes(false, Behind(s, n), out)
  {
    hide Leads, StoredBits, After;
    var y, x := Behind(mid, n), StoredBits(false, |mid|, []);
    NotFinal(false, |y|, out);
    LeadsSync(false, y, out);
    BehindMore(mid, n, x);
    StoredShift(|mid|, |y|);
  }

  lemma StoredShift(p: nat, q: nat)
    requires p % 8 == q % 8
    ensures StoredBits(false, p, []) == StoredBits(false, q, [])
  {
    hide BitsOf, ByteBits;
    PaddingShift(p + 3, q + 3);
  }

  /** Padding, and whatever trailer, behind the last block. */
  lemma EndSince(mid: Bits, n: nat, out: seq<byte>, s: Bits)
    requires 8 * n <= |mid| && Leads(false, Behind(mid, n), After(false, true, |Behind(mid, n)|, out))
    requires mid + Padding(|mid|) <= s
    ensures 8 * n <= |s| && Ends(Behind(s, n), out)
  {
    hide Leads, Padding, After;
    var y, x := Behind(mid, n), Padding(|mid|);
    LeadsPadded(false, y, out);
    BehindMore(mid, n, x);
    PaddingShift(|mid|, |y|);
    var z := s[|mid + x|..];
    assert s == mid + x + z;
    BehindMore(mid + x, n, z);
    LeadsMore(false, y + x, z, State(Done([]), |y + x|, out));
  }
}
