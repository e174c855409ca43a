/** tdefl_compress_lz_codes and tdefl_compress_block: from the code buffer to the bits of a block,
    and from these bits back to the bytes the block stands for. */
module LzCodeWriter {
  import opened Bytes
  import opened Bits
  import opened Canonical
  import opened InflateTable
  import opened Tokens
  import opened Reference
  import opened BlockFormat
  import opened BlockHeaders
  import opened DynamicBlock
  import opened BitWriter
  import opened LzBuffer
  import opened HuffmanCodes
  import opened Trimming
  import opened BlockWriter

  // ---- flags read from the front

  /** The flag variable while the flags of part are still to come; the set bit on top marks the end. */
  function FlagWord(part: seq<Token>, pad: nat): nat {
    ValueOf(Flags(part) + Zeros(pad) + [true])
  }

  /** Sets bit 8, behind the eight flags. */
  function WithEnd(flags: nat): nat {
    flags + 256
  }

  lemma {:induction false} ZerosValue(n: nat)
    ensures ValueOf(Zeros(n) + [true]) == Pow2(n)
  {
    if n == 0 {
      assert Zeros(0) + [true] == [true];
      assert [true][1..] == [];
    } else {
      ZerosValue(n - 1);
      assert (Zeros(n) + [true])[1..] == Zeros(n - 1) + [true];
    }
  }

  lemma FlagWordOne(part: seq<Token>, pad: nat)
    requires part == [] ==> pad == 0
    ensures FlagWord(part, pad) == 1 <==> part == []
  {
    hide ValueOf, Pow2;
    ZerosValue(pad);
    var f := Flags(part);
    assert f + Zeros(pad) + [true] == f + (Zeros(pad) + [true]);
    ValueOfConcat(f, Zeros(pad) + [true]);
    if part == [] {
      assert Pow2(0) == 1;
      assert ValueOf([]) == 0;
      assert f + (Zeros(0) + [true]) == Zeros(0) + [true];
    } else {
      TwoAtLeast(|f|, Pow2(pad));
    }
  }

  lemma TwoAtLeast(n: nat, p: nat)
    requires n > 0 && p > 0
    ensures Pow2(n) * p >= 2
  {
    Pow2Monotone(1, n);
    assert Pow2(n) >= 2;
    Product(Pow2(n), p);
  }

  lemma Product(a: nat, b: nat)
    requires a >= 2 && b >= 1
    ensures a * b >= 2
  {
  }

  /** Taking one flag. */
  lemma FlagWordStep(part: seq<Token>, pad: nat)
    requires part != []
    ensures FlagWord(part, pad) % 2 == Bit(part[0].Match?)
    ensures FlagWord(part, pad) / 2 == FlagWord(part[1..], pad)
  {
    var b := Flags(part) + Zeros(pad) + [true];
    assert b[1..] == Flags(part[1..]) + Zeros(pad) + [true];
    assert b[0] == part[0].Match?;
  }

  /** A flag byte with bit 8 set. */
  lemma FlagWordStart(g: seq<Token>)
    requires |g| <= 8
    ensures FlagWord(g, 8 - |g|) == WithEnd(FlagByte(g))
  {
    SmallPowers();
    hide ValueOf, Pow2;
    var n := 8 - |g|;
    var f := Flags(g);
    ZerosValue(n);
    ValueOfConcat(f, Zeros(n) + [true]);
    assert f + Zeros(n) + [true] == f + (Zeros(n) + [true]);
    Pow2Add(|g|, n);
  }

  /** The next group of the code buffer. */
  function NextGroup(rest: seq<Token>): seq<Token> {
    if |rest| <= 8 then rest else rest[..8]
  }

  lemma GroupSplit(rest: seq<Token>)
    requires AllRecordable(rest) && rest != []
    ensures var g := NextGroup(rest);
            AllRecordable(g) && 0 < |g| <= 8 && rest == g + rest[|g|..] && AllRecordable(rest[|g|..])
            && (|g| < 8 ==> rest[|g|..] == [])
            && Codes(rest) == [FlagByte(g)] + Payloads(g) + Codes(rest[|g|..])
  {
    hide FlagByte, Payloads;
  }

  lemma PayloadSplit(part: seq<Token>)
    requires AllRecordable(part) && part != []
    ensures AllRecordable(part[1..]) && Payloads(part) == Payload(part[0]) + Payloads(part[1..])
  {
  }

  lemma PayloadsEmpty(part: seq<Token>, rest: seq<Token>)
    requires AllRecordable(part) && AllRecordable(rest)
    ensures |Payloads(part) + Codes(rest)| == 0 <==> part == [] && rest == []
  {
    PayloadsLength(part);
    CodesLength(rest);
    if part == [] && rest == [] { assert Payloads(part) + Codes(rest) == []; }
  }

  // ---- putting tokens

  method PutLength(w: Writer, lit: Codebook, matchLen: nat)
    requires w.Valid() && BookOk(lit) && matchLen < 256 && HasCode(lit, LenSym(matchLen))
    modifies w`cur, w`written, w`bitBuffer, w`bitsIn, w.buf
    ensures w.Valid() && w.Stream() == old(w.Stream()) + LengthBits(Tables(lit.sizes, []), matchLen)
    ensures old(w.written) <= w.written
  {
    hide Code, BookOk, BitsOf, Pow2, LenSym, LenExtra, w.Valid, w.Stream;
    LengthAlphabet(matchLen);
    LowValue(matchLen, LenExtra(matchLen));
    ghost var s := w.Stream();
    PutCode(w, lit, LenSym(matchLen));
    w.PutBits(matchLen % Pow2(LenExtra(matchLen)), LenExtra(matchLen));
    ghost var c, x := Code(lit.sizes, LenSym(matchLen)), Low(matchLen, LenExtra(matchLen));
    assert s + c + x == s + (c + x);
  }

  method PutDistance(w: Writer, dist: Codebook, matchDist: nat)
    requires w.Valid() && BookOk(dist) && matchDist < WINDOW && HasCode(dist, DistSym(matchDist))
    modifies w`cur, w`written, w`bitBuffer, w`bitsIn, w.buf
    ensures w.Valid() && w.Stream() == old(w.Stream()) + DistanceBits(Tables([], dist.sizes), matchDist)
    ensures old(w.written) <= w.written
  {
    hide Code, BookOk, BitsOf, Pow2, SmallDistSym, SmallDistExtra, LargeDistSym, LargeDistExtra, w.Valid, w.Stream;
    DistanceAlphabet(matchDist);
    LowValue(matchDist, DistExtra(matchDist));
    ghost var s := w.Stream();
    var sym, numExtraBits;
    if matchDist < 512 {
      sym, numExtraBits := SmallDistSym(matchDist), SmallDistExtra(matchDist);
    } else {
      sym, numExtraBits := LargeDistSym(matchDist / 256), LargeDistExtra(matchDist / 256);
    }
    PutCode(w, dist, sym);
    w.PutBits(matchDist % Pow2(numExtraBits), numExtraBits);
    ghost var c, x := Code(dist.sizes, DistSym(matchDist)), Low(matchDist, DistExtra(matchDist));
    assert s + c + x == s + (c + x);
  }

  method PutMatch(w: Writer, lit: Codebook, dist: Codebook, matchLen: nat, matchDist: nat, ghost k: Token)
    requires w.Valid() && BookOk(lit) && BookOk(dist)
    requires k.Match? && matchLen == k.len - MIN_MATCH && matchDist == k.dist - 1
             && Codable(Tables(lit.sizes, dist.sizes), k)
    modifies w`cur, w`written, w`bitBuffer, w`bitsIn, w.buf
    ensures w.Valid() && w.Stream() == old(w.Stream()) + TokenBits(Tables(lit.sizes, dist.sizes), k)
    ensures old(w.written) <= w.written
  {
    hide Code, Low, BookOk, LenSym, DistSym, LenExtra, DistExtra, w.Valid, w.Stream;
    ghost var s := w.Stream();
    PutLength(w, lit, matchLen);
    PutDistance(w, dist, matchDist);
    ghost var a, b := LengthBits(Tables(lit.sizes, []), matchLen), DistanceBits(Tables([], dist.sizes), matchDist);
    assert s + a + b == s + (a + b);
  }

  lemma TokensBitsSnoc(t: Tables, ks: seq<Token>, k: Token)
    requires AllCodable(t, ks) && Codable(t, k)
    ensures AllCodable(t, ks + [k]) && TokensBits(t, ks + [k]) == TokensBits(t, ks) + TokenBits(t, k)
  {
    hide Codable, TokenBits;
    assert (ks + [k])[..|ks|] == ks;
  }

  /** One token of the code buffer: reads its payload at p and puts its bits. */
  method PutToken(w: Writer, codeBuf: array<byte>, p: nat, isMatch: bool, lit: Codebook, dist: Codebook, ghost k: Token)
    returns (next: nat)
    requires w.Valid() && codeBuf != w.buf && BookOk(lit) && BookOk(dist) && Codable(Tables(lit.sizes, dist.sizes), k)
    requires Recordable(k) && p + |Payload(k)| <= codeBuf.Length && codeBuf[p..p + |Payload(k)|] == Payload(k)
             && isMatch == k.Match?
    modifies w`cur, w`written, w`bitBuffer, w`bitsIn, w.buf
    ensures w.Valid() && w.Stream() == old(w.Stream()) + TokenBits(Tables(lit.sizes, dist.sizes), k)
    ensures old(w.written) <= w.written && next == p + |Payload(k)|
  {
    hide BookOk, Code, LenSym, DistSym, w.Valid, w.Stream, LengthBits, DistanceBits;
    ghost var q := codeBuf[p..p + |Payload(k)|];
    assert codeBuf[p] == q[0];
    if isMatch {
      assert codeBuf[p + 1] == q[1] && codeBuf[p + 2] == q[2];
      var matchLen: nat, matchDist: nat := codeBuf[p], Pair(codeBuf[p + 1], codeBuf[p + 2]);
      next := p + 3;
      PutMatch(w, lit, dist, matchLen, matchDist, k);
    } else {
      next := p + 1;
      PutCode(w, lit, codeBuf[p]);
    }
  }

  // ---- the loop over the code buffer

  /** Where the loop stands: done is written, part is what is left of the current group. */
  ghost predicate Reading(all: seq<byte>, p: nat, flags: nat, ks: seq<Token>, done: seq<Token>, part: seq<Token>,
      rest: seq<Token>, pad: nat) {
    && AllRecordable(part) && AllRecordable(rest) && ks == done + part + rest
    && p <= |all| && all[p..] == Payloads(part) + Codes(rest)
    && flags == FlagWord(part, pad) && (pad > 0 ==> rest == [])
  }

  lemma ReadFlags(all: seq<byte>, p: nat, flags: nat, ks: seq<Token>, done: seq<Token>, part: seq<Token>,
      rest: seq<Token>, pad: nat)
    requires Reading(all, p, flags, ks, done, part, rest, pad) && p < |all|
    ensures flags == 1 <==> part == []
    ensures part == [] ==>
              var g := NextGroup(rest);
              rest != [] && 0 < |g| <= 8 && |g| <= |rest|
                  && Reading(all, p + 1, WithEnd(all[p]), ks, done, g, rest[|g|..], 8 - |g|)
  {
    hide FlagWord, Payloads, Codes, Recordable, FlagByte;
    PayloadsEmpty(part, rest);
    FlagWordOne(part, pad);
    if part == [] {
      NoPayload();
      var g := NextGroup(rest);
      GroupSplit(rest);
      FlagWordStart(g);
      assert all[p] == all[p..][0] == FlagByte(g);
      assert all[p + 1..] == all[p..][1..] == Payloads(g) + Codes(rest[|g|..]);
      assert done + part + rest == done + g + rest[|g|..];
    }
  }

  lemma NoPayload()
    ensures Payloads([]) == []
  {
  }

  lemma ReadToken(all: seq<byte>, p: nat, flags: nat, ks: seq<Token>, done: seq<Token>, part: seq<Token>,
      rest: seq<Token>, pad: nat)
    requires Reading(all, p, flags, ks, done, part, rest, pad) && part != []
    ensures Recordable(part[0]) && part[0] in ks && p + |Payload(part[0])| <= |all|
    ensures var q := p + |Payload(part[0])|;
            all[p..q] == Payload(part[0]) && (flags % 2 == 1 <==> part[0].Match?)
            && Reading(all, q, flags / 2, ks, done + [part[0]], part[1..], rest, pad)
  {
    hide FlagWord, Payloads, Codes, Recordable, Payload;
    PayloadSplit(part);
    FlagWordStep(part, pad);
    var q := p + |Payload(part[0])|;
    var tail := Payload(part[0]) + (Payloads(part[1..]) + Codes(rest));
    assert all[p..] == tail;
    assert all[p..q] == tail[..q - p] && all[q..] == tail[q - p..];
    assert part == [part[0]] + part[1..];
    assert ks[|done|] == part[0];
    assert done + [part[0]] + part[1..] + rest == ks;
  }

  lemma StartReading(all: seq<byte>, ks: seq<Token>)
    requires AllRecordable(ks) && all == Codes(ks)
    ensures Reading(all, 0, 1, ks, [], [], ks, 0)
  {
    hide Codes;
    FlagWordOne([], 0);
    NoPayload();
    assert all[0..] == Payloads([]) + Codes(ks);
  }

  /** tdefl_compress_lz_codes, the portable version */
  method CompressLzCodes(w: Writer, codeBuf: array<byte>, end: nat, lit: Codebook, dist: Codebook, ghost ks: seq<Token>)
    returns (ok: bool)
    requires w.Valid() && codeBuf != w.buf && end <= codeBuf.Length && AllRecordable(ks) && codeBuf[..end] == Codes(ks)
    requires BookOk(lit) && BookOk(dist) && AllCodable(Tables(lit.sizes, dist.sizes), ks) && HasCode(lit, 256)
    modifies w`cur, w`written, w`bitBuffer, w`bitsIn, w.buf
    ensures w.Valid() && w.Stream() == old(w.Stream()) + BodyBits(Tables(lit.sizes, dist.sizes), ks)
    ensures old(w.written) <= w.written && (ok <==> w.cur < w.end)
  {
    hide *;
    var flags: nat, p: nat := 1, 0;
    ghost var t := Tables(lit.sizes, dist.sizes);
    ghost var s, all := w.Stream(), codeBuf[..end];
    ghost var done: seq<Token>, part: seq<Token>, rest, pad: nat := [], [], ks, 0;
    StartReading(all, ks);
    NoTokensBits(t);
    while p < end
      invariant p <= end && Reading(all, p, flags, ks, done, part, rest, pad)
      invariant w.Valid() && AllCodable(t, done) && w.Stream() == s + TokensBits(t, done)
      invariant codeBuf[..end] == all && codeBuf != w.buf && old(w.written) <= w.written
      decreases end - p
    {
      ReadFlags(all, p, flags, ks, done, part, rest, pad);
      if flags == 1 {
        assert codeBuf[p] == all[p];
        flags := WithEnd(codeBuf[p]);
        p := p + 1;
        part := NextGroup(rest);
        rest, pad := rest[|part|..], 8 - |part|;
      }
      ReadToken(all, p, flags, ks, done, part, rest, pad);
      TokenCodable(t, ks, part[0]);
      ghost var k := part[0];
      SliceOf(codeBuf[..], end, p, |Payload(k)|);
      TokensBitsSnoc(t, done, k);
      assert s + TokensBits(t, done) + TokenBits(t, k) == s + (TokensBits(t, done) + TokenBits(t, k));
      p := PutToken(w, codeBuf, p, flags % 2 == 1, lit, dist, k);
      flags := flags / 2;
      done, part := done + [k], part[1..];
    }
    ReadingEnds(all, p, flags, ks, done, part, rest, pad);
    PutCode(w, lit, 256);
    EndCode(lit);
    BodyIs(t, ks);
    assert s + TokensBits(t, ks) + Code(t.lit, 256) == s + (TokensBits(t, ks) + Code(t.lit, 256));
    ok := w.cur < w.end;
  }

  lemma SliceOf(b: seq<byte>, end: nat, p: nat, n: nat)
    requires p + n <= end <= |b|
    ensures b[..end][p..p + n] == b[p..p + n]
  {
  }

  lemma EndCode(b: Codebook)
    requires HasCode(b, 256)
    ensures HasCode(Codebook(b.sizes, []), 256)
  {
  }

  lemma BodyIs(t: Tables, ks: seq<Token>)
    requires AllCodable(t, ks) && HasCode(Codebook(t.lit, []), 256)
    ensures |t.lit| > 256 && BodyBits(t, ks) == TokensBits(t, ks) + Code(t.lit, 256)
  {
  }

  lemma NoTokensBits(t: Tables)
    ensures AllCodable(t, []) && TokensBits(t, []) == []
  {
  }

  lemma TokenCodable(t: Tables, ks: seq<Token>, k: Token)
    requires AllCodable(t, ks) && k in ks
    ensures Codable(t, k)
  {
  }

  lemma ReadingEnds(all: seq<byte>, p: nat, flags: nat, ks: seq<Token>, done: seq<Token>, part: seq<Token>,
      rest: seq<Token>, pad: nat)
    requires Reading(all, p, flags, ks, done, part, rest, pad) && p >= |all|
    ensures done == ks
  {
    hide FlagWord, Payloads, Codes, Recordable;
    PayloadsEmpty(part, rest);
  }
}
