/** tdefl_compressor with an output callback: blocks are flushed to the callback, and whatever is
    compressed decompresses to the input. */
module Compressor {
  import opened Bytes
  import opened Bits
  import opened Tokens
  import opened Reference
  import opened BlockFormat
  import opened BlockHeaders
  import opened BitWriter
  import opened LzBuffer
  import opened BlockWriter
  import opened BlockCompressor
  import opened Window
  import opened LazyParse
  import opened Dictionary
  import opened StreamMeaning
  import opened FlushParts
  import opened FlushMeaning
  import opened OutputBound
  import Adler32

  const OUT_BUF: nat := 85196

  datatype Status = BadParam | Okay | Stopped

  datatype Flush = NoFlush | SyncFlush | FullFlush | Finish

  /** Where the decompressor ends on a finished stream. */
  ghost function Finished(zlib: bool, stream: Bits, out: seq<byte>, adler: nat): State
    requires adler < 0x1_0000_0000
  {
    State(Done(if zlib then BigEndian(adler) else []), |stream|, out)
  }

  /** Fixed codes where asked for, and else codes with a compact header. */
  ghost predicate Thrifty(head: BlockHead, fixed: bool) {
    (fixed <==> head.Fixed?) && (head.Dynamic? ==> Compact(head.h))
  }

  class Tdefl {
    const opts: Options
    const d: Dict
    const codes: CodeBuffer
    const w: Writer
    const outBuf: array<byte>
    var dictPos: nat
    var blockIndex: nat
    var saved: Saved
    var adler: nat
    var wantsToFinish: bool
    var finished: bool
    var prevStatus: Status
    /** What the callback has received. */
    var sink: seq<byte>
    /** After a full flush: how much of the source, and of the stream in bytes, lies before it. */
    ghost var restarted: bool
    ghost var horizon: nat
    ghost var cut: nat

    ghost predicate Apart()
      reads w
    {
      && d.dict != codes.buf && d.dict != outBuf && codes.buf != outBuf && w.buf == outBuf
      && outBuf.Length == OUT_BUF && OptionsOk(opts)
    }

    ghost predicate Parts()
      reads d, d.dict, codes, codes.buf, w, outBuf
    {
      Apart() && d.Valid() && codes.Holds() && w.Valid()
    }

    ghost predicate ParseOk()
      reads this`dictPos, this`saved, this`adler, d, codes
    {
      Parsed(d.src, dictPos, codes.totalBytes, codes.Tokens(), d.lookaheadPos, saved) && adler < 0x1_0000_0000
    }

    ghost predicate StreamOk()
      reads this`blockIndex, this`dictPos, d, w
    {
      if blockIndex == 0 && opts.zlib then w.Stream() == [] && dictPos == 0
      else dictPos <= |d.src| && Encodes(opts.zlib, w.Stream(), d.src[..dictPos])
    }

    /** The source since the last full flush. */
    ghost function Since(): seq<byte>
      reads this`horizon, d
      requires horizon <= |d.src|
    {
      d.src[horizon..]
    }

    /** What is parsed refers to nothing before the last full flush, and the bits since then stand on their
        own for the source since then. */
    ghost predicate SinceOk()
      reads this`dictPos, this`saved, this`blockIndex, this`restarted, this`horizon, this`cut, d, codes, w
    {
      && horizon <= dictPos <= |d.src| && horizon + d.dictSize <= d.lookaheadPos
      && Parsed(Since(), dictPos - horizon, codes.totalBytes, codes.Tokens(), d.lookaheadPos - horizon, saved)
      && (!restarted ==> horizon == 0)
      && (restarted ==> blockIndex > 0 && 8 * cut <= |w.Stream()|
                        && Encodes(false, Behind(w.Stream(), cut), d.src[horizon..dictPos]))
    }

    ghost predicate SinkOk()
      reads this`sink, w
    {
      sink == w.written
    }

    ghost predicate Inv()
      reads this`dictPos, this`saved, this`adler, this`blockIndex, this`sink, this`restarted, this`horizon, this`cut,
            d, d.dict, codes, codes.buf, w, outBuf
    {
      Parts() && ParseOk() && StreamOk() && SinceOk() && SinkOk()
    }

    ghost predicate FinishedOk()
      reads this`adler, this`sink, this`restarted, this`horizon, this`cut, d, w, w.buf
    {
      && SinkOk() && w.Valid() && w.bitsIn == 0 && adler < 0x1_0000_0000
      && Leads(opts.zlib, w.Stream(), Finished(opts.zlib, w.Stream(), d.src, adler))
      && (restarted ==> horizon <= |d.src| && 8 * cut <= |w.Stream()| && Ends(Behind(w.Stream(), cut), Since()))
    }

    /** What holds between two calls. */
    ghost predicate RunOk()
      reads this, d, d.dict, d.next, d.hash, codes, codes.buf, w, w.buf, outBuf
    {
      && (if finished then FinishedOk()
      else Inv() && d.Chains() && d.lookaheadSize < MAX_MATCH && codes.pos <= CODE_BUF - 8)
      && (opts.zlib ==> adler == Adler32.Pack(Adler32.Checksum(Adler32.Unpack(1), d.src)))
    }

    /** tdefl_init */
    constructor (o: Options)
      requires OptionsOk(o)
      ensures RunOk() && !finished && !wantsToFinish && prevStatus == Okay && opts == o && d.src == []
              && w.written == [] && adler == 1
      ensures d.lookaheadSize == 0 && codes.pos == 1 && codes.totalBytes == 0
      ensures fresh(d) && fresh(d.dict) && fresh(d.next) && fresh(d.hash) && fresh(codes) && fresh(codes.buf)
              && fresh(w) && fresh(outBuf)
    {
      hide *;
      var dict := new Dict();
      var buffer := new CodeBuffer();
      var b := new byte[OUT_BUF](_ => 0);
      var writer := new Writer(b);
      opts, d, codes, outBuf, w := o, dict, buffer, b, writer;
      dictPos, blockIndex, adler, saved := 0, 0, 1, Saved(0, 0, 0);
      finished, wantsToFinish, prevStatus, sink := false, false, Okay, [];
      restarted, horizon, cut := false, 0, 0;
      new;
      assert d.Chains();
      StartInv();
      StartRun();
    }

    lemma StartInv()
      requires d.dict != codes.buf && d.dict != outBuf && codes.buf != outBuf && w.buf == outBuf
      requires outBuf.Length == OUT_BUF && OptionsOk(opts) && d.Valid() && codes.Holds() && w.Valid()
      requires w.written == [] && w.bitsIn == 0 && dictPos == 0 && blockIndex == 0 && saved.len == 0 && sink == []
      requires !restarted && horizon == 0
      requires d.src == [] && codes.full == codes.part == [] && d.lookaheadPos == 0 && adler == 1
      ensures Inv() && codes.totalBytes == 0
    {
      hide d.Valid, codes.Layout, w.Valid, OptionsOk, Parsed, Encodes;
      StartStream();
      assert codes.Tokens() == [];
      StartSince();
    }

    lemma StartRun()
      requires Inv() && d.Chains() && d.lookaheadSize == 0 && !finished && codes.pos == 1 && d.src == [] && adler == 1
      ensures RunOk()
    {
      hide Parts, ParseOk, StreamOk, SinkOk, d.Chains;
    }

    lemma StartStream()
      requires w.written == [] && w.bitsIn == 0 && dictPos == 0 && blockIndex == 0 && saved.len == 0
      requires !restarted && horizon == 0 && d.Valid()
      requires d.src == [] && codes.full == codes.part == [] && codes.Bookkeeping() && d.lookaheadPos == 0 && adler == 1
      ensures StreamOk() && ParseOk() && codes.totalBytes == 0
    {
      hide Encodes, Emitted, ByteBits, LitCounts, DistCounts, Holds;
      NothingYet();
      NothingEmitted([], 0);
      NoBytes();
      NoBitsLeft(w.bitBuffer);
      assert d.src[..0] == [];
      assert w.Stream() == [];
      assert codes.Tokens() == [];
    }

    lemma StartSince()
      requires dictPos == 0 && saved.len == 0 && !restarted && horizon == 0 && d.Valid() && d.src == []
      requires codes.Tokens() == [] && codes.totalBytes == 0 && d.lookaheadPos == 0
      ensures SinceOk()
    {
      hide Encodes, Holds;
      NothingEmitted([], 0);
      assert Since() == [];
      assert Parsed([], 0, 0, [], 0, saved);
    }

    /** The output buffer of a flush is as good as empty. */
    ghost predicate Roomy(size: nat)
      reads w
    {
      w.start == 0 && w.end == OUT_BUF - 16 && size <= 8 * w.from + 23
    }

    /** The block itself: compressed, raw where that is no longer and the dictionary still has the bytes,
        and once more with the fixed codes if the output buffer is too small, which it never is when a
        flush starts with it empty. */
    method PutBlock(codesEnd: nat, fin: bool, ghost pre: Bits)
      returns (ghost retried: bool, ghost kind: BlockKind, ghost first: BlockKind)
      requires Apart() && d.Valid() && w.Valid() && ParseOk() && codes.Bookkeeping()
      requires codesEnd <= codes.buf.Length && codesEnd <= CODE_BUF && codes.buf[..codesEnd] == Codes(codes.Tokens())
      requires w.Stream() == pre + [fin]
      modifies w`cur, w`written, w`bitBuffer, w`bitsIn, outBuf
      ensures Apart() && d.Valid() && w.Valid() && old(w.written) <= w.written
      ensures dictPos + codes.totalBytes <= |d.src| && BlockPut(pre, fin, kind)
      ensures |w.Stream()| <= |pre| + 675653 && (Roomy(|pre|) ==> !retried)
      ensures Roomy(|pre|) && codes.totalBytes > 0 && d.lookaheadPos - dictPos <= d.dictSize ==>
                |w.Stream()| <= |pre| + 42 + 8 * codes.totalBytes
      ensures Roomy(|pre|) ==> Choice(pre, kind, first)
    {
      hide Thrifty, Choice, Added, BlockOk, d.Valid, w.Valid, w.Stream, Codes, LitCounts, DistCounts, Produced, SavedOk,
           OptionsOk, ByteBits, BitsOf, Pow2, Emitted, AllRecordable, BlockPut, w.Point;
      var total := codes.totalBytes;
      EmittedInside(d.src, dictPos, total, codes.Tokens());
      var useRaw := opts.raw && d.lookaheadPos - dictPos <= d.dictSize;
      var ok := false;
      retried, first := false, RawBlock;
      var savedCur, savedBits, savedIn := w.cur, w.bitBuffer, w.bitsIn;
      ghost var savedWritten := w.written;
      SavePoint();
      StreamSize(w);
      if !useRaw {
        ok, kind := TryBlock(codesEnd, opts.fixed || total < 48, fin, pre);
        first := kind;
        if ok { TriedSize(pre, fin, first, savedCur, savedWritten, savedIn); }
      }
      ghost var tried := w.cur - savedCur;
      if (useRaw || (total > 0 && w.cur - savedCur + 1 >= total)) && d.lookaheadPos - dictPos <= d.dictSize {
        w.Rewind(savedCur, savedBits, savedIn, savedWritten);
        if Roomy(|pre|) { RawChosen(pre, useRaw, first, tried); }
        kind := PutRaw(fin, pre);
      } else if !ok {
        w.Rewind(savedCur, savedBits, savedIn, savedWritten);
        retried := true;
        ok, kind := TryBlock(codesEnd, true, fin, pre);
      } else if Roomy(|pre|) {
        FirstChosen(pre, first, tried);
      }
    }

    /** Whole bytes that a compressed block adds behind its final flag. */
    ghost function Added(pre: Bits, head: BlockHead): int
      reads codes
      requires BlockOk(head, codes.Tokens())
    {
      (|pre| + 1 + |BlockBits(head, codes.Tokens())|) / 8 - (|pre| + 1) / 8
    }

    /** Which block is written: raw if the options say so, else the compressed block, with the fixed codes for
        few bytes or if the options say so; but raw where that saves at most a byte. A raw block needs its
        bytes in the dictionary. */
    ghost predicate Choice(pre: Bits, kind: BlockKind, first: BlockKind)
      reads this`dictPos, d, codes
    {
      var total, inDict := codes.totalBytes, d.lookaheadPos - dictPos <= d.dictSize;
      if opts.raw && inDict then kind.RawBlock?
      else
        && first.Coded? && BlockOk(first.head, codes.Tokens()) && Thrifty(first.head, opts.fixed || total < 48)
        && kind == if inDict && total > 0 && Added(pre, first.head) + 1 >= total then RawBlock else first
    }

    lemma RawChosen(pre: Bits, useRaw: bool, first: BlockKind, tried: int)
      requires useRaw == (opts.raw && d.lookaheadPos - dictPos <= d.dictSize)
      requires useRaw || (codes.totalBytes > 0 && tried + 1 >= codes.totalBytes)
      requires d.lookaheadPos - dictPos <= d.dictSize
      requires !useRaw ==>
                 && first.Coded? && BlockOk(first.head, codes.Tokens()) && tried == Added(pre, first.head)
                 && Thrifty(first.head, opts.fixed || codes.totalBytes < 48)
      ensures Choice(pre, RawBlock, first)
    {
      hide BlockOk, Added, Thrifty;
    }

    lemma FirstChosen(pre: Bits, first: BlockKind, tried: int)
      requires !(opts.raw && d.lookaheadPos - dictPos <= d.dictSize)
      requires !(codes.totalBytes > 0 && tried + 1 >= codes.totalBytes && d.lookaheadPos - dictPos <= d.dictSize)
      requires first.Coded? && BlockOk(first.head, codes.Tokens()) && tried == Added(pre, first.head)
               && Thrifty(first.head, opts.fixed || codes.totalBytes < 48)
      ensures Choice(pre, first, first)
    {
      hide BlockOk, Added, Thrifty;
    }

    lemma TriedSize(pre: Bits, fin: bool, kind: BlockKind, savedCur: nat, savedWritten: seq<byte>, bits: nat)
      requires w.Valid() && w.Point(savedCur, savedWritten) && w.cur < w.end && savedWritten <= w.written
      requires BlockPut(pre, fin, kind) && kind.Coded? && bits < 8 && |pre| + 1 == 8 * |savedWritten| + bits
      ensures BlockOk(kind.head, codes.Tokens()) && w.cur - savedCur == Added(pre, kind.head)
      ensures |w.Stream()| < |pre| + 9 + 8 * (w.cur - savedCur)
    {
      hide w.Valid, w.Stream, w.Point, BlockBits, BlockOk;
      StreamSize(w);
      Grown(savedCur, savedWritten);
    }

    /** Without loss the pointer moves by the bytes written. */
    lemma Grown(savedCur: nat, savedWritten: seq<byte>)
      requires w.Valid() && w.Point(savedCur, savedWritten) && w.cur < w.end && savedWritten <= w.written
      ensures |w.written| - |savedWritten| == w.cur - savedCur
    {
      hide Pow2;
    }

    /** A block of this kind stands behind pre. */
    ghost predicate BlockPut(pre: Bits, fin: bool, kind: BlockKind)
      reads this`dictPos, d, codes, w
    {
      && dictPos + codes.totalBytes <= |d.src| && KindOk(kind, codes.Tokens(), codes.totalBytes)
      && w.Stream() == pre + BlockText(kind, fin, |pre|, d.src[dictPos..dictPos + codes.totalBytes], codes.Tokens())
    }

    /** A compressed block. */
    method TryBlock(codesEnd: nat, fixed: bool, fin: bool, ghost pre: Bits) returns (ok: bool, ghost kind: BlockKind)
      requires Apart() && d.Valid() && w.Valid() && codes.Bookkeeping() && dictPos + codes.totalBytes <= |d.src|
      requires codesEnd <= codes.buf.Length && codesEnd <= CODE_BUF && codes.buf[..codesEnd] == Codes(codes.Tokens())
      requires w.Stream() == pre + [fin]
      modifies w`cur, w`written, w`bitBuffer, w`bitsIn, outBuf
      ensures d.Valid() && w.Valid() && old(w.written) <= w.written && BlockPut(pre, fin, kind)
      ensures |w.Stream()| <= |pre| + 675653 && (ok <==> w.cur < w.end) && (Roomy(|pre|) ==> ok)
      ensures kind.Coded? && Thrifty(kind.head, fixed)
    {
      hide d.Valid, w.Valid, w.Stream, Codes, LitCounts, DistCounts, Produced, BlockOk, BlockBits, BlockText, KindOk,
           OptionsOk, ByteBits, BitsOf, Pow2, AllRecordable, Economical, Compact;
      ghost var ks := codes.Tokens();
      ghost var head;
      ok, head := CompressBlock(w, codes.buf, codesEnd, codes.litCount, codes.distCount, fixed, ks);
      kind := CodedText(pre, fin, head, ks, d.src[dictPos..dictPos + codes.totalBytes]);
      BlockSize(head, ks);
      RoomLeft(|pre|);
    }

    /** A raw block. */
    method PutRaw(fin: bool, ghost pre: Bits) returns (ghost kind: BlockKind)
      requires Apart() && d.Valid() && w.Valid() && ParseOk() && dictPos + codes.totalBytes <= |d.src|
      requires w.Stream() == pre + [fin] && d.lookaheadPos - dictPos <= d.dictSize
      modifies w`cur, w`written, w`bitBuffer, w`bitsIn, outBuf
      ensures d.Valid() && w.Valid() && old(w.written) <= w.written && BlockPut(pre, fin, kind)
      ensures |w.Stream()| <= |pre| + 42 + 8 * codes.totalBytes && codes.totalBytes <= 32768 && kind.RawBlock?
    {
      hide d.Valid, w.Valid, w.Stream, SavedOk, OptionsOk, Emitted, StoredBits;
      RawSmall();
      PutRawBlock(w, d, dictPos, codes.totalBytes, pre, fin);
      StoredSize(fin, |pre|, d.src[dictPos..dictPos + codes.totalBytes]);
      kind := RawBlock;
    }

    lemma CodedText(pre: Bits, fin: bool, head: BlockHead, ks: seq<Token>, data: seq<byte>) returns (kind: BlockKind)
      requires BlockOk(head, ks)
      ensures kind == Coded(head) && KindOk(kind, ks, |data|)
      ensures pre + [fin] + BlockBits(head, ks) == pre + BlockText(kind, fin, |pre|, data, ks)
    {
      hide BlockOk, BlockBits;
      kind := Coded(head);
      assert pre + [fin] + BlockBits(head, ks) == pre + ([fin] + BlockBits(head, ks));
    }

    lemma SavePoint()
      requires w.Valid()
      ensures w.Point(w.cur, w.written) && w.bitsIn < 8 && w.bitBuffer < Pow2(w.bitsIn)
      ensures w.Stream() == ByteBits(w.written) + BitsOf(w.bitBuffer, w.bitsIn)
    {
      hide Pow2, ByteBits, BitsOf;
    }

    lemma RawSmall()
      requires d.Valid() && ParseOk() && d.lookaheadPos - dictPos <= d.dictSize
      ensures codes.totalBytes <= 32768 && d.lookaheadPos - d.dictSize <= dictPos
    {
      hide Holds, Emitted, SavedOk;
    }

    /** What follows the block: a flush marker, or padding and the check value. */
    method PutTail(flush: Flush, ghost out: seq<byte>)
      requires w.Valid() && adler < 0x1_0000_0000
               && Leads(opts.zlib, w.Stream(), After(opts.zlib, flush == Finish, |w.Stream()|, out))
      modifies w`cur, w`written, w`bitBuffer, w`bitsIn, w.buf
      ensures w.Valid() && old(w.written) <= w.written
      ensures flush != Finish ==> Encodes(opts.zlib, w.Stream(), out)
      ensures flush == Finish ==>
                Leads(opts.zlib, w.Stream(), Finished(opts.zlib, w.Stream(), out, adler)) && w.bitsIn == 0
      ensures |w.Stream()| <= |old(w.Stream())| + 42
      ensures flush == NoFlush ==> w.Stream() == old(w.Stream())
      ensures flush == SyncFlush || flush == FullFlush ==>
                && w.Stream() == old(w.Stream()) + StoredBits(false, |old(w.Stream())|, [])
                && w.bitsIn == 0 && Marked(w.written)
      ensures flush == Finish ==> old(w.Stream()) + Padding(|old(w.Stream())|) <= w.Stream()
    {
      hide w.Valid, w.Stream, Leads, After, StoredBits, Padding, BigEndian, Marked;
      if flush != Finish {
        NotFinal(opts.zlib, |w.Stream()|, out);
      }
      if flush != NoFlush {
        if flush == Finish {
          LeadsPadded(opts.zlib, w.Stream(), out);
          PadToByte(w);
          if opts.zlib {
            PutTrailer(w, adler, out);
          }
        } else {
          LeadsSync(opts.zlib, w.Stream(), out);
          StoredSize(false, |w.Stream()|, []);
          PutSyncMarker(w);
        }
      }
    }

    /** The start of a block: the header of the stream before the first one, and the final flag. */
    method PutStart(flush: Flush) returns (ghost pre: Bits)
      requires w.Valid() && StreamOk()
      modifies w`cur, w`written, w`bitBuffer, w`bitsIn, w.buf
      ensures w.Valid() && w.Stream() == pre + [flush == Finish] && old(w.written) <= w.written
      ensures dictPos <= |d.src| && Encodes(opts.zlib, pre, d.src[..dictPos])
      ensures |pre| <= |old(w.Stream())| + 16 && (blockIndex > 0 ==> pre == old(w.Stream()))
    {
      hide w.Valid, w.Stream, Encodes, BitsOf, Pow2;
      if opts.zlib && blockIndex == 0 {
        PutHeader(w, opts.level);
        assert d.src[..dictPos] == [];
      }
      pre := w.Stream();
      FlagBit(flush == Finish);
      w.PutBits(if flush == Finish then 1 else 0, 1);
    }

    /** Hands the bytes of the output buffer to the callback. */
    method Deliver()
      requires w.Valid() && w.buf == outBuf && w.start == 0
      requires w.cur < w.end && sink == w.written[..w.from]
      modifies this`sink
      ensures SinkOk()
    {
      hide Pow2;
      var n := w.cur;
      if n != 0 {
        sink := sink + outBuf[..n];
      }
      w.NotFull();
      assert w.buf[w.start..w.cur] == outBuf[..n];
      assert w.written == w.written[..w.from] + w.written[w.from..];
    }

    lemma AtEnd()
      requires d.Valid()
      ensures d.lookaheadSize == 0 ==> d.lookaheadPos == |d.src|
      ensures d.src[..|d.src|] == d.src
    {
    }

    /** The start of a block and the block. */
    method WriteCodes(codesEnd: nat, flush: Flush) returns (ghost retried: bool)
      requires Apart() && d.Valid() && w.Valid() && ParseOk() && StreamOk() && SinceOk() && codes.Bookkeeping()
      requires codesEnd <= codes.buf.Length && codesEnd <= CODE_BUF && codes.buf[..codesEnd] == Codes(codes.Tokens())
      modifies w`cur, w`written, w`bitBuffer, w`bitsIn, outBuf
      ensures Apart() && d.Valid() && w.Valid() && old(w.written) <= w.written
      ensures BlockThere(flush == Finish, dictPos + codes.totalBytes)
      ensures |w.Stream()| <= |old(w.Stream())| + 675669 && (Roomy(|old(w.Stream())| + 16) ==> !retried)
    {
      hide d.Valid, w.Valid, w.Stream, Codes, Encodes, Leads, After, LitCounts, DistCounts, Produced, OptionsOk,
           SavedOk, AllRecordable, BlockText, KindOk, Emitted, Behind, Choice;
      var total := codes.totalBytes;
      ghost var ks := codes.Tokens();
      ghost var codeBytes := codes.buf[..codesEnd];
      ghost var pre := PutStart(flush);
      assert codes.buf[..codesEnd] == codeBytes;
      ghost var kind, first;
      retried, kind, first := PutBlock(codesEnd, flush == Finish, pre);
      BlockMeans(opts.zlib, pre, d.src, dictPos, total, ks, flush == Finish, kind);
      if restarted {
        BlockMeansSince(pre, cut, d.src, horizon, dictPos, total, ks, flush == Finish, kind);
      }
    }

    /** A block up to here has been written, and nothing behind it. */
    ghost predicate BlockThere(fin: bool, upto: nat)
      reads this`restarted, this`horizon, this`cut, d, w
    {
      && upto <= |d.src| && Leads(opts.zlib, w.Stream(), After(opts.zlib, fin, |w.Stream()|, d.src[..upto]))
      && (restarted ==>
            && horizon <= upto && 8 * cut <= |w.Stream()|
            && Leads(false, Behind(w.Stream(), cut),
                     After(false, fin, |Behind(w.Stream(), cut)|, d.src[horizon..upto])))
    }

    /** Everything a flush writes. */
    method WriteBlock(codesEnd: nat, flush: Flush) returns (ghost retried: bool)
      requires Apart() && d.Valid() && w.Valid() && ParseOk() && StreamOk() && SinceOk() && codes.Bookkeeping()
      requires codesEnd <= codes.buf.Length && codesEnd <= CODE_BUF && codes.buf[..codesEnd] == Codes(codes.Tokens())
      requires flush == Finish ==> d.lookaheadSize == 0
      modifies w`cur, w`written, w`bitBuffer, w`bitsIn, outBuf
      ensures Apart() && d.Valid() && w.Valid() && old(w.written) <= w.written && dictPos + codes.totalBytes <= |d.src|
      ensures Written(flush, dictPos + codes.totalBytes)
      ensures |w.Stream()| <= |old(w.Stream())| + 675711 && (Roomy(|old(w.Stream())| + 16) ==> !retried)
    {
      hide d.Valid, w.Valid, w.Stream, Codes, Encodes, Leads, After, LitCounts, DistCounts, Produced, OptionsOk,
           SavedOk, AllRecordable, Finished, Emitted, StoredBits, Padding, Marked, Behind, Ends, StreamOk, SinceOk;
      ghost var upto := dictPos + codes.totalBytes;
      NextParse(d.src, dictPos, codes.totalBytes, codes.Tokens(), d.lookaheadPos, saved);
      AtEnd();
      retried := WriteCodes(codesEnd, flush);
      ghost var mid := w.Stream();
      PutTail(flush, d.src[..upto]);
      if restarted {
        TailSince(mid, flush, upto);
      }
    }

    /** What the stream stands for when a flush has written everything up to here. */
    ghost predicate Written(flush: Flush, upto: nat)
      reads this`adler, this`restarted, this`horizon, this`cut, d, w
    {
      && upto <= |d.src| && adler < 0x1_0000_0000
      && (flush != Finish ==> Encodes(opts.zlib, w.Stream(), d.src[..upto]))
      && (flush == Finish ==> Leads(opts.zlib, w.Stream(), Finished(opts.zlib, w.Stream(), d.src, adler)))
      && (flush != NoFlush ==> w.bitsIn == 0)
      && (flush == SyncFlush || flush == FullFlush ==> Marked(w.written))
      && (restarted ==>
            && horizon <= upto && 8 * cut <= |w.Stream()|
            && (flush != Finish ==> Encodes(false, Behind(w.Stream(), cut), d.src[horizon..upto]))
            && (flush == Finish ==> Ends(Behind(w.Stream(), cut), d.src[horizon..upto])))
    }

    lemma TailSince(mid: Bits, flush: Flush, upto: nat)
      requires horizon <= upto <= |d.src| && 8 * cut <= |mid|
      requires Leads(false, Behind(mid, cut), After(false, flush == Finish, |Behind(mid, cut)|, d.src[horizon..upto]))
      requires flush == NoFlush ==> w.Stream() == mid
      requires flush == SyncFlush || flush == FullFlush ==> w.Stream() == mid + StoredBits(false, |mid|, [])
      requires flush == Finish ==> mid + Padding(|mid|) <= w.Stream()
      ensures 8 * cut <= |w.Stream()|
      ensures flush != Finish ==> Encodes(false, Behind(w.Stream(), cut), d.src[horizon..upto])
      ensures flush == Finish ==> Ends(Behind(w.Stream(), cut), d.src[horizon..upto])
    {
      hide Leads, After, StoredBits, Padding, Behind, Ends, w.Stream;
      var out := d.src[horizon..upto];
      if flush == NoFlush {
        NotFinal(false, |Behind(mid, cut)|, out);
      } else if flush == Finish {
        EndSince(mid, cut, out, w.Stream());
      } else {
        SyncSince(mid, cut, out);
      }
    }

    /** No block and no tail reaches the end of the output buffer. */
    lemma RoomLeft(size: nat)
      requires w.Valid() && |w.Stream()| <= size + 675695
      ensures Roomy(size) ==> w.cur < w.end
    {
      hide ByteBits, Pow2;
      StreamSize(w);
    }

    /** Closes the code buffer and writes its block into the output buffer. */
    method EmitBlock(flush: Flush) returns (ghost retried: bool)
      requires Parts() && ParseOk() && StreamOk() && SinceOk() && (flush == Finish ==> d.lookaheadSize == 0)
      modifies codes.buf, w, outBuf
      ensures Apart() && d.Valid() && w.Valid() && codes.buf.Length == CODE_BUF && dictPos + codes.totalBytes <= |d.src|
      ensures Written(flush, dictPos + codes.totalBytes)
      ensures w.start == 0 && w.from <= |w.written| && w.written[..w.from] == old(w.written)
      ensures w.cur < w.end && !retried
    {
      hide d.Valid, w.Valid, w.Stream, Codes, Encodes, Leads, LitCounts, DistCounts, Produced, OptionsOk, Parsed,
           AllRecordable, codes.Layout, Finished, Written;
      w.SetBuffer(outBuf, 0, OUT_BUF - 16);
      StreamSize(w);
      var end := codes.Close();
      ghost var before := |w.Stream()|;
      retried := WriteBlock(end, flush);
      RoomLeft(before + 16);
    }

    /** tdefl_flush_block */
    method FlushBlock(flush: Flush)
      requires Inv() && !finished && (flush == Finish ==> d.lookaheadSize == 0)
      modifies this`dictPos, this`blockIndex, this`sink, codes, codes.buf, w, outBuf
      ensures SinkOk() && codes.pos == 1 && codes.Tokens() == []
      ensures dictPos == old(dictPos + codes.totalBytes) && codes.totalBytes == 0 && blockIndex == old(blockIndex) + 1
      ensures w.cur < w.end
      ensures flush != Finish ==> Inv()
      ensures flush == Finish ==> FinishedOk()
      ensures flush == SyncFlush || flush == FullFlush ==> w.bitsIn == 0 && Marked(sink)
      ensures d.lookaheadSize == 0 ==> dictPos == |d.src|
    {
      hide d.Valid, w.Valid, w.Stream, Encodes, Leads, LitCounts, DistCounts, Produced, OptionsOk, Parsed,
           AllRecordable, codes.Layout, Finished, Behind, Ends, Marked;
      AtEnd();
      NextParse(d.src, dictPos, codes.totalBytes, codes.Tokens(), d.lookaheadPos, saved);
      NextParse(Since(), dictPos - horizon, codes.totalBytes, codes.Tokens(), d.lookaheadPos - horizon, saved);
      ghost var retried := EmitBlock(flush);
      dictPos := dictPos + codes.totalBytes;
      blockIndex := blockIndex + 1;
      codes.Reset();
      assert codes.Tokens() == [];
      Deliver();
    }

    /** Fills the look-ahead; what is parsed and written so far keeps its meaning. */
    method Take(input: array<byte>, srcPos: nat) returns (n: nat)
      requires Inv() && d.Chains() && srcPos <= input.Length && input != d.dict && input != outBuf && input != codes.buf
      modifies d`src, d`lookaheadSize, d`dictSize, d.dict, d.next, d.hash
      ensures Inv() && d.Chains() && n == Least(input.Length - srcPos, MAX_MATCH - old(d.lookaheadSize))
              && d.lookaheadSize == old(d.lookaheadSize) + n
      ensures d.src == old(d.src) + input[srcPos..srcPos + n] && input[..] == old(input[..])
    {
      hide Holds, w.Valid, w.Stream, Encodes, codes.Holds, Parsed, OptionsOk, d.Chains;
      ghost var s := d.src;
      ParsedInside(d.src, dictPos, codes.totalBytes, codes.Tokens(), d.lookaheadPos, saved);
      n := d.Fill(input, srcPos);
      ghost var more := input[srcPos..srcPos + n];
      ParsedMore(s, more, dictPos, codes.totalBytes, codes.Tokens(), d.lookaheadPos, saved);
      ParsedMore(s[horizon..], more, dictPos - horizon, codes.totalBytes, codes.Tokens(), d.lookaheadPos - horizon,
          saved);
      assert d.src[..dictPos] == s[..dictPos];
      assert Since() == s[horizon..] + more && d.src[horizon..dictPos] == s[horizon..dictPos];
    }

    /** Records what the parsing rules decide for the match found at the current byte c. */
    method Record(len: nat, dist: nat, c: byte) returns (move: nat)
      requires codes.Holds() && codes.pos <= CODE_BUF - 8
      requires AllRecordable(Decide(saved, c, len, dist, opts.greedy || opts.rle).tokens)
      modifies this`saved, codes, codes.buf
      ensures codes.Holds() && codes.pos <= CODE_BUF
      ensures var s := Decide(old(saved), c, len, dist, opts.greedy || opts.rle);
              codes.Tokens() == old(codes.Tokens()) + s.tokens && saved == s.saved && move == s.move
    {
      hide codes.Layout, codes.Bookkeeping, Recordable;
      ghost var s, before := Decide(saved, c, len, dist, opts.greedy || opts.rle), codes.Tokens();
      if s.tokens != [] { assert Recordable(s.tokens[0]); }
      if |s.tokens| > 1 { assert Recordable(s.tokens[1]); }
      assert before + [] == before;
      move := 1;
      if saved.len > 0 {
        if len > saved.len {
          codes.RecordLiteral(saved.lit);
          if len >= 128 {
            codes.RecordMatch(len, dist);
            assert before + [Literal(saved.lit)] + [Match(len, dist)] == before + s.tokens;
            saved := saved.(len := 0);
            move := len;
          } else {
            saved := Saved(c, len, dist);
          }
        } else {
          codes.RecordMatch(saved.len, saved.dist);
          move := saved.len - 1;
          saved := saved.(len := 0);
        }
      } else if dist == 0 {
        codes.RecordLiteral(c);
      } else if opts.greedy || opts.rle || len >= 128 {
        codes.RecordMatch(len, dist);
        move := len;
      } else {
        saved := Saved(c, len, dist);
      }
    }

    /** One step of the parser: find a match, record, move on. */
    method ParseStep() returns (ghost foundLen: nat, ghost foundDist: nat)
      requires Inv() && d.Chains() && codes.pos <= CODE_BUF - 8 && d.lookaheadSize > 0
      modifies this`saved, d`lookaheadPos, d`lookaheadSize, d`dictSize, codes, codes.buf
      ensures Inv() && d.Chains() && codes.pos <= CODE_BUF && d.lookaheadPos > old(d.lookaheadPos)
      ensures OptionsOk(opts) && old(d.lookaheadPos) < |d.src|
      ensures Searched(opts, d.src, d.origin, old(d.lookaheadPos), old(d.dictSize), old(saved), foundLen, foundDist)
      ensures var s := Chosen(opts, d.src[old(d.lookaheadPos)], old(d.lookaheadPos), old(saved), foundLen, foundDist);
              && codes.Tokens() == old(codes.Tokens()) + s.tokens && saved == s.saved
              && d.lookaheadPos == old(d.lookaheadPos) + s.move
    {
      hide d.Valid, w.Valid, w.Stream, Encodes, codes.Layout, LitCounts, DistCounts, Produced, Candidate, Decide,
           Emitted, OptionsOk, RealMatch, Least,
           Most, Behind, Parsed, Searched, d.Chains;
      ghost var src, pos, ks, total, was := d.src, d.lookaheadPos, codes.Tokens(), codes.totalBytes, saved;
      SavedLength();
      var len, dist;
      len, dist, foundLen, foundDist := d.ChooseMatch(opts, saved);
      d.ByteAt(d.lookaheadPos);
      var c := d.dict[d.lookaheadPos % DICT];
      ghost var s := Decide(saved, c, len, dist, opts.greedy || opts.rle);
      StepParses(src, dictPos, total, ks, pos, saved, len, dist, opts.greedy || opts.rle);
      SinceSteps(len, dist);
      var move := Record(len, dist, c);
      ProducedConcat(ks, s.tokens);
      d.Move(move);
    }

    /** The step told of the source since the last full flush. */
    lemma SinceSteps(len: nat, dist: nat)
      requires SinceOk() && d.Valid() && d.lookaheadSize > 0
      requires Candidate(d.src, d.lookaheadPos, saved, len, dist) && (dist > 0 ==> dist <= d.dictSize)
      ensures var s := Decide(saved, d.src[d.lookaheadPos], len, dist, opts.greedy || opts.rle);
              && AllRecordable(s.tokens)
              && Parsed(Since(), dictPos - horizon, codes.totalBytes + Produced(s.tokens), codes.Tokens() + s.tokens,
                        d.lookaheadPos + s.move - horizon, s.saved)
    {
      hide Holds, Parsed, Encodes, Behind, Produced, Decide, Candidate;
      if dist > 0 {
        CandidateSince(d.src, horizon, d.lookaheadPos, saved, len, dist);
      } else {
        CandidateNone(d.src, horizon, d.lookaheadPos, saved, len);
      }
      StepParses(Since(), dictPos - horizon, codes.totalBytes, codes.Tokens(), d.lookaheadPos - horizon, saved, len,
          dist,
                 opts.greedy || opts.rle);
    }

    lemma SavedLength()
      requires Parts() && ParseOk()
      ensures saved.len > 0 ==> MIN_MATCH <= saved.len < 128
      ensures codes.totalBytes == Produced(codes.Tokens()) && |d.src| == d.lookaheadPos + d.lookaheadSize
      ensures d.Shape() && d.dictSize <= d.lookaheadPos
    {
      hide Holds, Emitted, codes.Layout;
    }

    /** Whether the code buffer is nearly full, or compression does not pay and a raw block is still possible. */
    function TimeToFlush(): bool
      reads this, codes
    {
      codes.pos > CODE_BUF - 8
      || (codes.totalBytes > 31 * 1024 && (codes.pos * 115 / 128 >= codes.totalBytes || opts.raw))
    }

    /** No block is written before it stands for more than 31 kilobytes, or at a flush. */
    lemma DueMeans()
      requires Inv() && TimeToFlush()
      ensures codes.totalBytes > 31 * 1024
    {
      hide Parts, StreamOk, SinceOk, SinkOk, ParseOk;
      assert codes.Holds() by { HoldsPart(); }
      codes.HoldsMuch();
    }

    lemma HoldsPart()
      requires Parts()
      ensures codes.Holds()
    {
      hide Holds, w.Valid, codes.Holds;
    }

    /** One round of tdefl_compress_normal: fill the look-ahead and, if there is enough, parse one step. */
    method Round(input: array<byte>, srcPos: nat, flush: Flush) returns (n: nat, more: bool)
      requires Inv() && d.Chains() && !finished && codes.pos <= CODE_BUF - 8 && input != d.dict && input != outBuf
               && input != codes.buf
      requires srcPos <= input.Length && (srcPos < input.Length || d.lookaheadSize > 0)
      modifies this`saved, this`dictPos, this`blockIndex, this`sink, d, d.dict, d.next, d.hash, codes, codes.buf, w,
               outBuf
      ensures Inv() && d.Chains() && codes.pos <= CODE_BUF - 8 && n <= input.Length - srcPos
              && input[..] == old(input[..])
      ensures d.src == old(d.src) + input[srcPos..srcPos + n]
      ensures more ==> input.Length - (srcPos + n) + d.lookaheadSize < input.Length - srcPos + old(d.lookaheadSize)
      ensures !more ==> flush == NoFlush && srcPos + n == input.Length
      ensures more <==> flush != NoFlush || old(d.lookaheadSize) + n == MAX_MATCH
      ensures if more then d.lookaheadPos > old(d.lookaheadPos) else d.lookaheadPos == old(d.lookaheadPos)
      ensures if more then !TimeToFlush() else d.lookaheadSize < MAX_MATCH
      ensures if blockIndex == old(blockIndex) then dictPos == old(dictPos)
              else blockIndex == old(blockIndex) + 1 && dictPos > old(dictPos) + 31 * 1024
    {
      hide Inv, Least, d.Chains, Searched;
      Positions();
      n := Take(input, srcPos);
      FillAmount(input.Length - srcPos, d.lookaheadSize - n, n);
      if flush == NoFlush && d.lookaheadSize < MAX_MATCH {
        return n, false;
      }
      Positions();
      ghost var foundLen, foundDist := ParseStep();
      Positions();
      FlushIfDue();
      more := true;
    }

    /** A block is written exactly when it is time for one. */
    method FlushIfDue()
      requires Inv() && !finished
      modifies this`dictPos, this`blockIndex, this`sink, codes, codes.buf, w, outBuf
      ensures Inv() && codes.pos <= CODE_BUF - 8
      ensures blockIndex == old(blockIndex) + (if old(TimeToFlush()) then 1 else 0) && !TimeToFlush()
      ensures !old(TimeToFlush()) ==> codes.Tokens() == old(codes.Tokens()) && dictPos == old(dictPos)
      ensures old(TimeToFlush()) ==> codes.Tokens() == [] && dictPos > old(dictPos) + 31 * 1024
    {
      hide Inv;
      if TimeToFlush() {
        DueMeans();
        FlushBlock(NoFlush);
      }
    }

    /** tdefl_compress_normal */
    method CompressNormal(input: array<byte>, flush: Flush) returns (srcPos: nat)
      requires d.lookaheadSize < MAX_MATCH && Inv() && d.Chains() && !finished && codes.pos <= CODE_BUF - 8
               && input != d.dict && input != outBuf
               && input != codes.buf
      modifies this`saved, this`dictPos, this`blockIndex, this`sink, d, d.dict, d.next, d.hash, codes, codes.buf, w,
               outBuf
      ensures Inv() && d.Chains() && codes.pos <= CODE_BUF - 8 && srcPos == input.Length
              && (if flush == NoFlush then d.lookaheadSize < MAX_MATCH else d.lookaheadSize == 0)
      ensures d.src == old(d.src) + input[..] && input[..] == old(input[..])
    {
      hide Inv, d.Chains;
      srcPos := 0;
      assert d.src + input[..0] == d.src;
      while srcPos < input.Length || (flush != NoFlush && d.lookaheadSize > 0)
        invariant srcPos <= input.Length && Inv() && d.Chains() && codes.pos <= CODE_BUF - 8
        invariant d.src == old(d.src) + input[..srcPos] && input[..] == old(input[..])
        invariant flush == NoFlush && srcPos == input.Length ==> d.lookaheadSize < MAX_MATCH
        decreases input.Length - srcPos + d.lookaheadSize
      {
        var n, more := Round(input, srcPos, flush);
        assert input[..srcPos] + input[srcPos..srcPos + n] == input[..srcPos + n];
        srcPos := srcPos + n;
        if !more {
          break;
        }
      }
      assert input[..srcPos] == input[..];
    }

    lemma Positions()
      requires Inv()
      ensures d.lookaheadPos + d.lookaheadSize == |d.src| && d.lookaheadSize <= MAX_MATCH
    {
      hide Holds, Parsed, w.Valid, codes.Holds, StreamOk;
    }

    /** The check value of everything consumed. */
    method UpdateAdler(input: array<byte>, ghost before: seq<byte>)
      requires opts.zlib ==> adler == Adler32.Pack(Adler32.Checksum(Adler32.Unpack(1), before))
      requires Inv()
      modifies this`adler
      ensures Inv()
      ensures opts.zlib ==> adler == Adler32.Pack(Adler32.Checksum(Adler32.Unpack(1), before + input[..]))
    {
      hide Parts, StreamOk, SinkOk, Parsed, Adler32.Checksum, Adler32.Pack, Adler32.Unpack;
      if opts.zlib {
        AdlerOne();
        Adler32.PackedConcatenation(1, before, input[..]);
        assert input[0..input.Length] == input[..];
        adler := Adler32.Adler(adler, input, 0, input.Length);
      }
    }

    lemma AdlerOne()
      ensures Adler32.Reduced(Adler32.Unpack(1))
    {
    }

    /** A full flush gives up the dictionary: from here on the stream starts afresh. */
    method ForgetDictionary()
      requires Inv() && d.lookaheadSize == 0 && dictPos == |d.src| && codes.totalBytes == 0 && codes.Tokens() == []
      requires w.bitsIn == 0 && blockIndex > 0
      modifies d`dictSize, d`origin, d.next, d.hash, this`restarted, this`horizon, this`cut
      ensures Inv() && d.Chains() && d.dictSize == 0 && restarted && horizon == |d.src| && cut == |w.written|
    {
      hide Holds, Encodes, w.Valid, w.Stream, codes.Holds, Emitted, d.Chains;
      d.Forget();
      restarted, horizon, cut := true, |d.src|, |w.written|;
      StreamSize(w);
      FreshStart();
    }

    lemma FreshStart()
      requires restarted && horizon == dictPos == |d.src| && codes.totalBytes == 0 && codes.Tokens() == []
      requires d.Shape() && d.Positions() && d.lookaheadSize == 0 && d.dictSize == 0 && blockIndex > 0
      requires 8 * cut == |w.Stream()| && Parsed(d.src, dictPos, 0, [], d.lookaheadPos, saved)
      ensures SinceOk()
    {
      hide Encodes, w.Stream;
      NothingYet();
      NothingEmitted([], 0);
      assert Since() == [] && d.src[horizon..dictPos] == [];
      assert Behind(w.Stream(), cut) == [];
      assert Emitted([], 0, 0, []);
    }

    /** What a call with SyncFlush or FullFlush leaves: the callback has whole bytes, ending with the marker,
        that stand for everything taken so far. */
    ghost predicate Flushed()
      reads this`dictPos, this`sink, d, w
    {
      && w.bitsIn == 0 && dictPos == |d.src| && d.lookaheadSize == 0 && Marked(sink)
      && Encodes(opts.zlib, ByteBits(sink), d.src)
    }

    lemma FlushedNow()
      requires Inv() && w.bitsIn == 0 && dictPos == |d.src| && d.lookaheadSize == 0 && Marked(sink) && blockIndex > 0
      ensures Flushed()
    {
      hide Parts, ParseOk, SinceOk, Encodes, Marked, w.Stream;
      assert w.Valid() by { PartsValid(); }
      StreamSize(w);
      assert d.src[..dictPos] == d.src;
    }

    lemma PartsValid()
      requires Parts()
      ensures w.Valid()
    {
      hide w.Valid;
    }

    /** The flush at the end of a call. */
    method FlushAll(flush: Flush)
      requires Inv() && d.Chains() && !finished && flush != NoFlush && d.lookaheadSize == 0
      modifies this`dictPos, this`blockIndex, this`sink, this`finished, this`restarted, this`horizon, this`cut,
               d`dictSize, d`origin, d.next, d.hash, codes, codes.buf, w, outBuf
      ensures finished == (flush == Finish)
              && (if finished then FinishedOk() else Inv() && d.Chains() && codes.pos == 1 && Flushed())
      ensures flush == FullFlush ==> d.dictSize == 0 && restarted && horizon == |d.src| && cut == |sink|
      ensures flush != FullFlush ==> restarted == old(restarted) && horizon == old(horizon) && cut == old(cut)
    {
      hide Parts, ParseOk, StreamOk, SinceOk, FinishedOk, Flushed, Marked, d.Chains;
      Positions();
      FlushBlock(flush);
      finished := flush == Finish;
      if flush == FullFlush {
        ForgetDictionary();
      }
      if flush != Finish {
        FlushedNow();
      }
    }

    /** tdefl_compress */
    method Compress(input: array<byte>, flush: Flush) returns (status: Status)
      requires RunOk() && input != d.dict && input != outBuf && input != codes.buf
      modifies this`saved, this`dictPos, this`blockIndex, this`sink, this`adler, this`wantsToFinish, this`finished,
               this`prevStatus, this`restarted, this`horizon, this`cut,
               d, d.dict, d.next, d.hash, codes, codes.buf, w, outBuf
      ensures RunOk() && prevStatus == status
      ensures status == BadParam <==> old(prevStatus) != Okay || (old(wantsToFinish) && flush != Finish)
      ensures status == BadParam ==> d.src == old(d.src) && finished == old(finished)
      ensures status != BadParam && !old(finished) ==>
                d.src == old(d.src) + input[..] && (finished <==> flush == Finish)
      ensures status != BadParam ==> (status == Stopped <==> finished)
      ensures status == Okay && (flush == SyncFlush || flush == FullFlush) ==> Flushed()
      ensures status == Okay && flush == FullFlush ==>
                d.dictSize == 0 && restarted && horizon == |d.src| && cut == |sink|
      ensures flush != FullFlush || status != Okay ==>
                restarted == old(restarted) && horizon == old(horizon) && cut == old(cut)
    {
      hide Inv, FinishedOk, Adler32.Checksum, Adler32.Pack, Adler32.Unpack, Flushed, Marked, d.Chains;
      if prevStatus != Okay || (wantsToFinish && flush != Finish) {
        status, prevStatus := BadParam, BadParam;
        return;
      }
      if flush == Finish {
        wantsToFinish := true;
      }
      if !finished {
        ghost var before := d.src;
        var srcPos := CompressNormal(input, flush);
        UpdateAdler(input, before);
        if flush != NoFlush {
          FlushAll(flush);
        }
      }
      status := if finished then Stopped else Okay;
      prevStatus := status;
    }

    /** Lossless: however the input was cut into calls and flushes, decompressing what the callback
        received of a finished stream ends with exactly the input and its check value, and no other end
        is possible. */
    lemma Lossless(flat: bool, end: State)
      requires RunOk() && finished
      requires var cfg := Config(opts.zlib, flat);
               Reaches(cfg, ByteBits(sink), Reference.Start(cfg), end)
                   && !Reference.Step(cfg, ByteBits(sink), end).Next?
      ensures end.out == d.src && end.pos == 8 * |sink|
      ensures end.pc
              == Done(if opts.zlib then BigEndian(Adler32.Pack(Adler32.Checksum(Adler32.Unpack(1), d.src))) else [])
    {
      hide Reaches, Adler32.Checksum, Adler32.Pack, Adler32.Unpack, ByteBits, BigEndian, w.Valid;
      var cfg := Config(opts.zlib, flat);
      StreamSize(w);
      var t := Finished(opts.zlib, w.Stream(), d.src, adler);
      assert Brings(opts.zlib, flat, ByteBits(sink), t);
      StuckUnique(cfg, ByteBits(sink), Reference.Start(cfg), t, end);
    }
  }

  lemma FillAmount(left: nat, size: nat, n: nat)
    requires n == Least(left, MAX_MATCH - size) && size <= MAX_MATCH
    ensures n <= left && (size + n < MAX_MATCH ==> n == left) && (left > 0 || size > 0 ==> size + n > 0)
  {
  }

  lemma ParsedInside(src: seq<byte>, dictPos: nat, total: nat, ks: seq<Token>, pos: nat, s: Saved)
    requires Parsed(src, dictPos, total, ks, pos, s)
    ensures dictPos <= |src|
  {
  }

  lemma FlagBit(b: bool)
    ensures BitsOf(if b then 1 else 0, 1) == [b] && 1 < Pow2(1)
  {
    assert BitsOf(if b then 1 else 0, 1) == [(if b then 1 else 0) % 2 == 1] + BitsOf((if b then 1 else 0) / 2, 0);
  }

  /** The parse goes on with an empty block; at the end of the source nothing is pending. */
  lemma NextParse(src: seq<byte>, dictPos: nat, total: nat, ks: seq<Token>, pos: nat, s: Saved)
    requires Parsed(src, dictPos, total, ks, pos, s)
    ensures dictPos + total <= |src| && Parsed(src, dictPos + total, 0, [], pos, s)
    ensures pos == |src| ==> dictPos + total == |src|
  {
    NothingEmitted(src, dictPos + total);
  }

  lemma EmittedInside(src: seq<byte>, dictPos: nat, total: nat, ks: seq<Token>)
    requires Emitted(src, dictPos, total, ks)
    ensures dictPos + total <= |src|
  {
  }

  lemma NoBitsLeft(v: nat)
    ensures BitsOf(v, 0) == []
  {
  }
}