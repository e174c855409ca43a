/** The pieces of tdefl_flush_block that write around a block: zlib header, raw block, flush marker, trailer. */
module FlushParts {
  import opened Bytes
  import opened Bits
  import opened Canonical
  import opened Tokens
  import opened Reference
  import opened BlockFormat
  import opened BlockHeaders
  import opened BitWriter
  import opened Window
  import opened Dictionary
  import opened StreamMeaning

  const NUM_PROBES: seq<nat> := [0, 1, 6, 32, 16, 32, 128, 256, 512, 768, 1500]

  lemma {:induction false} ZeroBits(n: nat)
    ensures BitsOf(0, n) == Zeros(n)
  {
    if n > 0 { ZeroBits(n - 1); }
  }

  /** FLEVEL of section 2.2 of RFC 1950 by the number of probes: fastest, fast, default, best. */
  function LevelHint(probes: nat): nat {
    if probes == 0 || probes == 1 then 0
    else if probes == 6 || probes == 16 || probes == 32 then 1
    else if probes == 128 then 2 else 3
  }

  lemma HintOf(level: nat, i: nat, flevel: nat)
    requires i <= 11 && (i < 11 ==> NUM_PROBES[i] == level) && forall j: nat :: j < i ==> NUM_PROBES[j] != level
    requires flevel == if i < 2 then 0 else if i < 6 then 1 else if i == 6 then 2 else 3
    ensures flevel == LevelHint(level)
  {
    if i > 0 { assert NUM_PROBES[0] != level; }
    if i > 1 { assert NUM_PROBES[1] != level; }
    if i > 2 { assert NUM_PROBES[2] != level; }
    if i > 3 { assert NUM_PROBES[3] != level; }
    if i > 4 { assert NUM_PROBES[4] != level; }
    if i > 6 { assert NUM_PROBES[6] != level; }
  }

  /** The second header byte: a level hint, and a check value that makes the header a multiple of 31. */
  method HeaderFlags(level: nat) returns (flg: byte)
    ensures !BadHeader(Config(true, true), 0x78, flg) && !BadHeader(Config(true, false), 0x78, flg)
    ensures flg / 64 == LevelHint(level) && (0x78 * 256 + flg) % 31 == 0
  {
    var flevel := 3;
    var i := 0;
    while i < 11
      invariant 0 <= i <= 11 && forall j: nat :: j < i ==> NUM_PROBES[j] != level
    {
      if NUM_PROBES[i] == level {
        break;
      }
      i := i + 1;
    }
    if i < 2 {
      flevel := 0;
    } else if i < 6 {
      flevel := 1;
    } else if i == 6 {
      flevel := 2;
    }
    HintOf(level, i, flevel);
    var header := 0x78 * 256 + flevel * 64;
    header := header + 31 - header % 31;
    flg := header % 256;
  }

  method PutHeader(w: Writer, level: nat)
    requires w.Valid() && w.Stream() == []
    modifies w`cur, w`written, w`bitBuffer, w`bitsIn, w.buf
    ensures w.Valid() && Encodes(true, w.Stream(), []) && |w.Stream()| == 16 && old(w.written) <= w.written
    ensures exists flg: byte :: flg / 64 == LevelHint(level) && w.Stream() == BitsOf(0x78, 8) + BitsOf(flg, 8)
  {
    SmallPowers();
    hide BitsOf, w.Valid, w.Stream, BadHeader, Pow2, Encodes, LevelHint;
    var flg := HeaderFlags(level);
    w.PutBits(0x78, 8);
    w.PutBits(flg, 8);
    assert [] + BitsOf(0x78, 8) + BitsOf(flg, 8) == BitsOf(0x78, 8) + BitsOf(flg, 8);
    HeaderLeads(0x78, flg);
  }

  lemma StreamSize(w: Writer)
    requires w.Valid()
    ensures |w.Stream()| == 8 * |w.written| + w.bitsIn && w.bitsIn < 8
    ensures w.bitsIn == 0 ==> w.Stream() == ByteBits(w.written)
  {
    hide ByteBits;
    if w.bitsIn == 0 { assert w.Stream() == ByteBits(w.written); }
  }

  /** Equal bits are equal bytes. */
  lemma {:induction false} SameBytes(a: seq<byte>, b: seq<byte>)
    requires ByteBits(a) == ByteBits(b)
    ensures a == b
    decreases |a|
  {
    hide BitsOf;
    if a != [] && b != [] {
      var n: nat := |a| - 1;
      var p, q := ByteBits(a[..n]), ByteBits(b[..n]);
      assert ByteBits(a)[..8 * n] == p && ByteBits(b)[..8 * n] == q;
      assert ByteBits(a)[8 * n..] == BitsOf(a[n], 8) && ByteBits(b)[8 * n..] == BitsOf(b[n], 8);
      SameBytes(a[..n], b[..n]);
      EightBitsSame(a[n], b[n]);
    }
  }

  lemma EightBitsSame(x: byte, y: byte)
    requires BitsOf(x, 8) == BitsOf(y, 8)
    ensures x == y
  {
    SmallPowers();
    hide BitsOf, Pow2;
    ValueOfBitsOf(x, 8);
    ValueOfBitsOf(y, 8);
  }

  method PadToByte(w: Writer)
    requires w.Valid()
    modifies w`cur, w`written, w`bitBuffer, w`bitsIn, w.buf
    ensures w.Valid() && w.Stream() == old(w.Stream()) + Padding(|old(w.Stream())|) && w.bitsIn == 0
    ensures old(w.written) <= w.written
  {
    hide BitsOf, ByteBits, w.Valid, w.Stream, Zeros;
    StreamSize(w);
    ghost var s := w.Stream();
    if w.bitsIn != 0 {
      ZeroBits(8 - w.bitsIn);
      PowPositive(8 - w.bitsIn);
      w.PutBits(0, 8 - w.bitsIn);
    } else {
      NoZeroBits();
      assert s + Padding(|s|) == s;
    }
    StreamSize(w);
  }

  lemma PowPositive(n: nat)
    ensures 0 < Pow2(n)
  {
  }

  lemma NoZeroBits()
    ensures Zeros(0) == []
  {
  }

  /** A 16-bit value and its complement. */
  method PutTwice(w: Writer, v: nat)
    requires w.Valid() && v <= 65535
    modifies w`cur, w`written, w`bitBuffer, w`bitsIn, w.buf
    ensures w.Valid() && w.Stream() == old(w.Stream()) + BitsOf(v, 16) + BitsOf(65535 - v, 16)
            && old(w.written) <= w.written
  {
    hide BitsOf, w.Valid, w.Stream, Pow2;
    ghost var s := w.Stream();
    Pow16();
    var i, x: nat := 2, v;
    while i > 0
      invariant 0 <= i <= 2 && w.Valid() && x == (if i == 1 then 65535 - v else v) && old(w.written) <= w.written
      invariant w.Stream() == if i == 2 then s else if i == 1 then s + BitsOf(v, 16)
                else s + BitsOf(v, 16) + BitsOf(65535 - v, 16)
    {
      w.PutBits(x, 16);
      x := 65535 - x;
      i := i - 1;
    }
  }

  lemma Pow16()
    ensures Pow2(16) == 65536
  {
    Pow15();
  }

  /** The bytes of a raw block, taken from the dictionary. */
  method PutDictBytes(w: Writer, d: Dict, dictPos: nat, total: nat)
    requires w.Valid() && d.Valid() && d.dict != w.buf
    requires d.lookaheadPos - d.dictSize <= dictPos && dictPos + total <= |d.src|
    modifies w`cur, w`written, w`bitBuffer, w`bitsIn, w.buf
    ensures w.Valid() && w.Stream() == old(w.Stream()) + ByteBits(d.src[dictPos..dictPos + total])
            && old(w.written) <= w.written
    ensures d.Valid()
  {
    hide BitsOf, ByteBits, w.Valid, w.Stream, Holds, Pow2;
    ghost var s, bytes := w.Stream(), d.dict[..];
    EightBits();
    NoBytes();
    assert d.src[dictPos..dictPos] == [] && s + [] == s;
    var i := 0;
    while i < total
      invariant 0 <= i <= total && w.Valid() && d.dict[..] == bytes && d.dict != w.buf && old(w.written) <= w.written
      invariant w.Stream() == s + ByteBits(d.src[dictPos..dictPos + i])
    {
      d.ByteAt(dictPos + i);
      var c := d.dict[(dictPos + i) % DICT];
      w.PutBits(c, 8);
      ByteBitsSnoc(d.src[dictPos..dictPos + i], c);
      assert d.src[dictPos..dictPos + i] + [c] == d.src[dictPos..dictPos + i + 1];
      assert s + ByteBits(d.src[dictPos..dictPos + i]) + BitsOf(c, 8) == s
             + (ByteBits(d.src[dictPos..dictPos + i]) + BitsOf(c, 8));
      i := i + 1;
    }
  }

  lemma NoBytes()
    ensures ByteBits([]) == []
  {
  }

  lemma Chain(pre: Bits, a: Bits, b: Bits, c: Bits, d: Bits, e: Bits, f: Bits)
    ensures pre + (a + b + c + d + e + f) == pre + a + b + c + d + e + f
  {
    assert pre + (a + b + c + d + e + f) == (pre + (a + b + c + d + e)) + f;
    assert pre + (a + b + c + d + e) == (pre + (a + b + c + d)) + e;
    assert pre + (a + b + c + d) == pre + a + b + c + d;
  }

  /** What a stored block adds behind its final flag. */
  lemma StoredParts(pre: Bits, fin: bool, data: seq<byte>)
    requires |data| <= 65535
    ensures pre + StoredBits(fin, |pre|, data) == pre + [fin] + BitsOf(0, 2) + Padding(|pre| + 3) + BitsOf(|data|, 16)
            + BitsOf(65535 - |data|, 16) + ByteBits(data)
  {
    hide BitsOf, ByteBits, Padding;
    Chain(pre, [fin], BitsOf(0, 2), Padding(|pre| + 3), BitsOf(|data|, 16), BitsOf(65535 - |data|, 16), ByteBits(data));
    assert StoredBits(fin, |pre|, data) == [fin] + BitsOf(0, 2) + Padding(|pre| + 3) + BitsOf(|data|, 16)
           + BitsOf(65535 - |data|, 16) + ByteBits(data);
  }

  /** A raw block behind its final flag. */
  method PutRawBlock(w: Writer, d: Dict, dictPos: nat, total: nat, ghost pre: Bits, ghost fin: bool)
    requires w.Valid() && d.Valid() && d.dict != w.buf && w.Stream() == pre + [fin]
    requires d.lookaheadPos - d.dictSize <= dictPos && dictPos + total <= |d.src| && total <= 65535
    modifies w`cur, w`written, w`bitBuffer, w`bitsIn, w.buf
    ensures w.Valid() && w.Stream() == pre + StoredBits(fin, |pre|, d.src[dictPos..dictPos + total])
            && old(w.written) <= w.written
    ensures d.Valid()
  {
    hide BitsOf, ByteBits, Padding, StoredBits, w.Valid, w.Stream, d.Valid, Pow2, Holds;
    PowPositive(2);
    w.PutBits(0, 2);
    PadToByte(w);
    PutTwice(w, total);
    PutDictBytes(w, d, dictPos, total);
    StoredParts(pre, fin, d.src[dictPos..dictPos + total]);
  }

  /** The bytes end with the marker of a sync flush. */
  predicate Marked(bytes: seq<byte>) {
    |bytes| >= 4 && bytes[|bytes| - 4..] == [0, 0, 255, 255]
  }

  lemma MarkerBits()
    ensures BitsOf(0, 16) + BitsOf(65535, 16) == ByteBits([0, 0, 255, 255])
  {
    hide BitsOf, ByteBits;
    TwoBytes(0);
    TwoBytes(65535);
    var b: Bits, c: Bits := BitsOf(0, 8), BitsOf(255, 8);
    ByteBitsSnoc([], 0);
    ByteBitsSnoc([0], 0);
    ByteBitsSnoc([0, 0], 255);
    ByteBitsSnoc([0, 0, 255], 255);
    NoBytes();
    assert [] + [0] == [0] && [0] + [0] == [0, 0] && [0, 0] + [255] == [0, 0, 255];
    assert [0, 0, 255] + [255] == [0, 0, 255, 255];
    assert ByteBits([0]) == b;
    assert b + b + c + c == (b + b) + (c + c);
  }

  lemma MarkerWritten(pre: Bits, bytes: seq<byte>)
    requires ByteBits(bytes) == pre + BitsOf(0, 16) + BitsOf(65535, 16) && |pre| % 8 == 0
    ensures Marked(bytes)
  {
    hide BitsOf, ByteBits;
    var n: nat := |bytes| - 4;
    ByteBitsConcat(bytes[..n], bytes[n..]);
    assert bytes == bytes[..n] + bytes[n..];
    MarkerBits();
    assert ByteBits(bytes)[8 * n..] == ByteBits(bytes[n..]);
    assert ByteBits(bytes)[8 * n..] == BitsOf(0, 16) + BitsOf(65535, 16);
    SameBytes(bytes[n..], [0, 0, 255, 255]);
  }

  /** The empty stored block of a sync flush. */
  method PutSyncMarker(w: Writer)
    requires w.Valid()
    modifies w`cur, w`written, w`bitBuffer, w`bitsIn, w.buf
    ensures w.Valid() && w.Stream() == old(w.Stream()) + StoredBits(false, |old(w.Stream())|, [])
            && old(w.written) <= w.written
    ensures w.bitsIn == 0 && Marked(w.written)
  {
    hide BitsOf, ByteBits, Padding, w.Valid, w.Stream, Pow2, StoredBits, Marked;
    ghost var s := w.Stream();
    PowPositive(3);
    w.PutBits(0, 3);
    PadToByte(w);
    ghost var padded := w.Stream();
    StreamSize(w);
    PutTwice(w, 0);
    StreamSize(w);
    MarkerWritten(padded, w.written);
    ThreeZeros();
    assert s + ([false] + BitsOf(0, 2)) == s + [false] + BitsOf(0, 2);
    StoredParts(s, false, []);
    NoBytes();
  }

  lemma ThreeZeros()
    ensures BitsOf(0, 3) == [false] + BitsOf(0, 2)
  {
  }

  /** The four bytes of a 32-bit number, most significant first. */
  function BigEndian(a: nat): (b: seq<byte>)
    requires a < 0x1_0000_0000
    ensures |b| == 4
  {
    [a / 0x100_0000, (a / 0x1_0000) % 256, (a / 256) % 256, a % 256]
  }

  /** The Adler-32 of the data, shifted out of the top of a 32-bit word. */
  method PutTrailer(w: Writer, adler: nat, ghost out: seq<byte>)
    requires w.Valid() && adler < 0x1_0000_0000
    requires Leads(true, w.Stream(), State(Trailer([]), |w.Stream()|, out)) && w.bitsIn == 0
    modifies w`cur, w`written, w`bitBuffer, w`bitsIn, w.buf
    ensures w.Valid() && Leads(true, w.Stream(), State(Done(BigEndian(adler)), |w.Stream()|, out)) && w.bitsIn == 0
    ensures old(w.written) <= w.written && |w.Stream()| == |old(w.Stream())| + 32 && old(w.Stream()) <= w.Stream()
  {
    hide BitsOf, w.Valid, w.Stream, Pow2, Leads, ByteBits;
    EightBits();
    var a := adler;
    var i := 0;
    while i < 4
      invariant 0 <= i <= 4 && w.Valid() && a < 0x1_0000_0000 && old(w.written) <= w.written && w.bitsIn == 0
      invariant |w.Stream()| == |old(w.Stream())| + 8 * i && old(w.Stream()) <= w.Stream()
      invariant i == 0 ==> a == adler
      invariant i == 1 ==> a == (adler % 0x100_0000) * 256
      invariant i == 2 ==> a == (adler % 0x1_0000) * 0x1_0000
      invariant i == 3 ==> a == (adler % 256) * 0x100_0000
      invariant var c := BigEndian(adler)[..i];
                Leads(true, w.Stream(), State(if i < 4 then Trailer(c) else Done(c), |w.Stream()|, out))
    {
      TopByte(adler, a, i);
      StreamSize(w);
      ghost var s, b := w.Stream(), a / 0x100_0000;
      LeadsCheckByte(s, out, BigEndian(adler)[..i], b);
      assert BigEndian(adler)[..i] + [b] == BigEndian(adler)[..i + 1];
      w.PutBits(a / 0x100_0000, 8);
      StreamSize(w);
      a := (a * 256) % 0x1_0000_0000;
      i := i + 1;
    }
    assert BigEndian(adler)[..4] == BigEndian(adler);
  }

  lemma TopByte(adler: nat, a: nat, i: nat)
    requires adler < 0x1_0000_0000 && i < 4
    requires a == if i == 0 then adler else if i == 1 then (adler % 0x100_0000) * 256
             else if i == 2 then (adler % 0x1_0000) * 0x1_0000 else (adler % 256) * 0x100_0000
    ensures 0 <= a / 0x100_0000 < 256 && a / 0x100_0000 == BigEndian(adler)[i]
    ensures i == 0 ==> (a * 256) % 0x1_0000_0000 == (adler % 0x100_0000) * 256
    ensures i == 1 ==> (a * 256) % 0x1_0000_0000 == (adler % 0x1_0000) * 0x1_0000
    ensures i == 2 ==> (a * 256) % 0x1_0000_0000 == (adler % 256) * 0x100_0000
  {
    hide BigEndian;
    var b3, b2, b1, b0 := FourBytes(adler);
    BigEndianIs(adler, b3, b2, b1, b0);
    if i == 0 {
      Shift(a, b3, b0 + 256 * b1 + 65536 * b2);
    } else if i == 1 {
      Shift(a, b2, 256 * (b0 + 256 * b1));
    } else if i == 2 {
      Shift(a, b1, 65536 * b0);
    } else {
      Shift(a, b0, 0);
    }
  }

  /** Taking the top byte off a 32-bit word. */
  lemma Shift(a: nat, top: nat, rest: nat)
    requires a == top * 0x100_0000 + rest && rest < 0x100_0000 && top < 256
    ensures a / 0x100_0000 == top && (a * 256) % 0x1_0000_0000 == rest * 256
  {
    DivModUnique(a, 0x100_0000, top, rest);
    DivModUnique(a * 256, 0x1_0000_0000, top, rest * 256);
  }

  lemma FourBytes(adler: nat) returns (b3: nat, b2: nat, b1: nat, b0: nat)
    requires adler < 0x1_0000_0000
    ensures b3 < 256 && b2 < 256 && b1 < 256 && b0 < 256
    ensures adler == b0 + 256 * b1 + 65536 * b2 + 16777216 * b3
  {
    b0, b1 := adler % 256, (adler / 256) % 256;
    var h := adler / 65536;
    b2, b3 := h % 256, h / 256;
    assert adler == b0 + 256 * (adler / 256) && adler / 256 == b1 + 256 * h by { assert adler / 256 / 256 == h; }
  }

  lemma BigEndianIs(adler: nat, b3: nat, b2: nat, b1: nat, b0: nat)
    requires b3 < 256 && b2 < 256 && b1 < 256 && b0 < 256
    requires adler == b0 + 256 * b1 + 65536 * b2 + 16777216 * b3
    ensures adler < 0x1_0000_0000 && adler % 0x100_0000 == b0 + 256 * b1 + 65536 * b2
    ensures adler % 0x1_0000 == b0 + 256 * b1 && adler % 256 == b0
    ensures BigEndian(adler)[0] == b3 && BigEndian(adler)[1] == b2 && BigEndian(adler)[2] == b1
            && BigEndian(adler)[3] == b0
  {
    DivModUnique(adler, 0x100_0000, b3, b0 + 256 * b1 + 65536 * b2);
    DivModUnique(adler, 0x1_0000, b2 + 256 * b3, b0 + 256 * b1);
    DivModUnique(adler, 256, b1 + 256 * b2 + 65536 * b3, b0);
    DivModUnique(b1 + 256 * b2 + 65536 * b3, 256, b2 + 256 * b3, b1);
    DivModUnique(b2 + 256 * b3, 256, b3, b2);
  }
}
